# Artifact transform registration, modelled in Dafny

This project models Gradle's `DefaultVariantTransformRegistry`. The registry
records *artifact transforms*: declarations that an artifact with one set of
attributes (`from`) can be turned into an artifact with another (`to`).
Build logic registers a transform through one of three entry points:

- `registerTransform(action)` uses the legacy `ArtifactTransform` class and a raw parameter array;
- `registerTransform(parameterType, action)` uses a typed parameter object;
- `registerTransformAction(actionType, action)` names the action type directly.

Each entry point creates a draft and runs the user's callback on it. It then
checks the action type (the draft's, or `registerTransformAction`'s argument)
and the draft's attributes: an action type must be present, at least one `to`
attribute, at least one `from` attribute, and every `to` attribute must also
be a `from` attribute. Only after these checks pass does it append a
finalized registration to the ordered list that `getTransforms` returns.

Files:

- `wrappers.dfy` holds `Option`, `Result` and `Outcome`. They stand in for
  null references and for the `VariantTransformConfigurationException` the
  registry throws.
- `transform_model.dfy` holds attribute containers as maps, the callback's
  attribute writes, the configuration errors with their messages, and the
  finalized `Registration` record.
- `validation.dfy` holds `validateActionType` and `validateAttributes` as pure functions.
- `drafts.dfy` holds the draft classes `RecordingRegistration`,
  `UntypedRegistration` and `TypedRegistration`. Each class has a value view
  and pure functions that say what a callback does to that view.
- `registry.dfy` holds the registry class and its specification. `Prepare`
  runs a call's callback on a new draft, `Admit` validates and appends, and
  `RegisterCall` is one call of any entry point. The file also holds the
  lemmas about the registry.

A user callback is modelled as a sequence of edits. An edit is an attribute
write, an `artifactTransform` call, or a `parameters(action)` call. The
first exception ends the callback, and the registration then fails with that
exception. `ActionRegistration` adds nothing to `RecordingRegistration`, so
the action-type entry point uses a `RecordingRegistration` draft. The typed
draft's action type is a `const`, because nothing in the class writes it
after the constructor. `getTransforms` is the function
`DefaultVariantTransformRegistry.GetTransforms`; its order is stated by the
lemmas `RunCallsAppendsAdmitted` and `TwoRegistrationsKeepOrder`.

`artifactTransform` (`DefaultVariantTransformRegistry.java` lines 183-189)
refuses a second call only when the stored action type is non-null. So
`artifactTransform(null)` followed by `artifactTransform(T)` is accepted;
`CallbackFailsIffArtifactTransformRepeated` states this by counting only
earlier calls with a non-null type.

## Model

| member | source | states |
|---|---|---|
| TransformModel.ApplyAttributeEdits | subprojects/dependency-management/src/main/java/org/gradle/api/internal/artifacts/transform/DefaultVariantTransformRegistry.java:157-163 | after a callback's `getFrom()`/`getTo()` writes, each container holds exactly its earlier attribute names plus the names written to it; a written name has the value of its last write, any other keeps its earlier value |
| TransformModel.LastWriteOfSnoc | subprojects/dependency-management/src/main/java/org/gradle/api/internal/artifacts/transform/DefaultVariantTransformRegistry.java:157-163 | proof step for `TransformModel.ApplyAttributeEdits`: a write appended to a run is the last write of its own name and leaves the last write of every other name unchanged |
| TransformModel.LastWriteOfConcat | subprojects/dependency-management/src/main/java/org/gradle/api/internal/artifacts/transform/DefaultVariantTransformRegistry.java:157-163 | proof step for `TransformModel.ApplyAttributeEdits`: the last write of a name in two consecutive runs of writes is its last write in the second run, or in the first when the second never writes it |
| TransformModel.LastWriteAfterFirst | subprojects/dependency-management/src/main/java/org/gradle/api/internal/artifacts/transform/DefaultVariantTransformRegistry.java:157-163 | proof step for `TransformModel.ApplyAttributeEdits`: the last write of a name is the last one after the first write, or the first write itself when no later write names it |
| TransformModel.AppliedAfterFirst | subprojects/dependency-management/src/main/java/org/gradle/api/internal/artifacts/transform/DefaultVariantTransformRegistry.java:157-163 | proof step for `TransformModel.ApplyAttributeEdits`: applying the first write and then the rest gives each container the names and last-write values of the whole sequence |
| TransformModel.ApplyAttributeEditsCons | subprojects/dependency-management/src/main/java/org/gradle/api/internal/artifacts/transform/DefaultVariantTransformRegistry.java:157-163 | proof step for `TransformModel.ApplyAttributeEdits`: applying one write and then a run of writes is applying the whole run in order |
| TransformModel.EditsOnEmptySpec | subprojects/dependency-management/src/main/java/org/gradle/api/internal/artifacts/transform/DefaultVariantTransformRegistry.java:152-163 | starting from a new draft's empty containers, each container holds exactly the names written into it, each with its last written value |
| TransformModel.Message | subprojects/dependency-management/src/main/java/org/gradle/api/internal/artifacts/transform/DefaultVariantTransformRegistry.java:126-141 | every configuration error message starts with "Could not register transform: " |
| Validation.ValidateActionType | subprojects/dependency-management/src/main/java/org/gradle/api/internal/artifacts/transform/DefaultVariantTransformRegistry.java:126-130 | passes exactly when an action type is present; otherwise reports the missing-action error |
| Validation.ValidateAttributes | subprojects/dependency-management/src/main/java/org/gradle/api/internal/artifacts/transform/DefaultVariantTransformRegistry.java:132-142 | passes exactly when `to` and `from` are non-empty and every `to` name is a `from` name; an empty `to` is reported first (even if `from` is empty too), then an empty `from`, then a `to` name missing from `from` |
| Validation.Validate | subprojects/dependency-management/src/main/java/org/gradle/api/internal/artifacts/transform/DefaultVariantTransformRegistry.java:118-121 | the action-type check runs before the attribute checks: with no action type the result is the missing-action error whatever the attributes; with one it is the attribute verdict |
| Drafts.SetArtifactTransform | subprojects/dependency-management/src/main/java/org/gradle/api/internal/artifacts/transform/DefaultVariantTransformRegistry.java:182-189 | refuses with the duplicate error exactly when an action type is already stored, changing nothing; otherwise stores the given type and config and leaves the attributes alone |
| Drafts.RunUntyped | subprojects/dependency-management/src/main/java/org/gradle/api/internal/artifacts/transform/DefaultVariantTransformRegistry.java:183-189 | running a callback on an untyped draft can only fail with the duplicate error, and a stored action type and its config action are never replaced |
| Drafts.CallbackFailsIffArtifactTransformRepeated | subprojects/dependency-management/src/main/java/org/gradle/api/internal/artifacts/transform/DefaultVariantTransformRegistry.java:183-189 | an untyped callback fails exactly when it calls `artifactTransform` after a non-null action type is already stored |
| Drafts.RunUntypedStoresLastCall | subprojects/dependency-management/src/main/java/org/gradle/api/internal/artifacts/transform/DefaultVariantTransformRegistry.java:177-189 | a successful untyped callback leaves the action type and config action of its last `artifactTransform` call (no config action for the one-argument form), or the draft's earlier ones when it makes no such call |
| Drafts.UntypedCallbackWrites | subprojects/dependency-management/src/main/java/org/gradle/api/internal/artifacts/transform/DefaultVariantTransformRegistry.java:89-95 | after a successful legacy callback the draft's `from`/`to` containers are what its attribute writes, applied in order, make of the draft's earlier containers; `artifactTransform` calls do not touch them |
| Drafts.NoConfigActionStaysUnset | subprojects/dependency-management/src/main/java/org/gradle/api/internal/artifacts/transform/DefaultVariantTransformRegistry.java:177-180 | a callback that passes no config action (the one-argument `artifactTransform` passes null) leaves the config action unset |
| Drafts.RunTyped | subprojects/dependency-management/src/main/java/org/gradle/api/internal/artifacts/transform/DefaultVariantTransformRegistry.java:201-213 | a typed callback cannot change the draft's action type |
| Drafts.TypedCallbackWrites | subprojects/dependency-management/src/main/java/org/gradle/api/internal/artifacts/transform/DefaultVariantTransformRegistry.java:104-106 | after a typed callback the draft's `from`/`to` containers are what its attribute writes, applied in order, make of the draft's earlier containers; `parameters(action)` calls do not touch them |
| Drafts.RecordingRegistration.constructor | subprojects/dependency-management/src/main/java/org/gradle/api/internal/artifacts/transform/DefaultVariantTransformRegistry.java:152-155 | a new draft has empty `from` and `to` containers |
| Drafts.RecordingRegistration.Attribute | subprojects/dependency-management/src/main/java/org/gradle/api/internal/artifacts/transform/DefaultVariantTransformRegistry.java:157-163 | a write through `getFrom()` or `getTo()` updates that container only |
| Drafts.RecordingRegistration.Execute | subprojects/dependency-management/src/main/java/org/gradle/api/internal/artifacts/transform/DefaultVariantTransformRegistry.java:112-113 | the action-type callback leaves the containers as its writes, applied in order, make them |
| Drafts.UntypedRegistration.constructor | subprojects/dependency-management/src/main/java/org/gradle/api/internal/artifacts/transform/DefaultVariantTransformRegistry.java:172-175 | a new untyped draft has empty containers, no action type and no config action |
| Drafts.UntypedRegistration.ArtifactTransform | subprojects/dependency-management/src/main/java/org/gradle/api/internal/artifacts/transform/DefaultVariantTransformRegistry.java:177-180 | `artifactTransform(type)` behaves as the two-argument form with a null config |
| Drafts.UntypedRegistration.ArtifactTransformWithConfig | subprojects/dependency-management/src/main/java/org/gradle/api/internal/artifacts/transform/DefaultVariantTransformRegistry.java:182-189 | with an action type already stored: duplicate error, draft unchanged; otherwise stores type and config |
| Drafts.UntypedRegistration.GetTransformParameters | subprojects/dependency-management/src/main/java/org/gradle/api/internal/artifacts/transform/DefaultVariantTransformRegistry.java:191-198 | returns the empty array when there is no config action, otherwise the parameters the config action produces |
| Drafts.UntypedRegistration.Execute | subprojects/dependency-management/src/main/java/org/gradle/api/internal/artifacts/transform/DefaultVariantTransformRegistry.java:89-90 | runs the callback on the draft, stopping at the first exception; on success the draft is the callback's result |
| Drafts.TypedRegistration.constructor | subprojects/dependency-management/src/main/java/org/gradle/api/internal/artifacts/transform/DefaultVariantTransformRegistry.java:206-213 | the action type is the parameter type's `TransformAction` association, or unset without one |
| Drafts.TypedRegistration.Parameters | subprojects/dependency-management/src/main/java/org/gradle/api/internal/artifacts/transform/DefaultVariantTransformRegistry.java:220-223 | `parameters(action)` applies the action to the parameter object and changes nothing else |
| Drafts.TypedRegistration.GetParameters | subprojects/dependency-management/src/main/java/org/gradle/api/internal/artifacts/transform/DefaultVariantTransformRegistry.java:215-218 | `getParameters()` returns the parameter object as the draft currently holds it, the one a typed registration is finalized with |
| Drafts.TypedRegistration.Execute | subprojects/dependency-management/src/main/java/org/gradle/api/internal/artifacts/transform/DefaultVariantTransformRegistry.java:104-105 | runs the typed callback on the draft; the result is the callback's result |
| Registry.DefaultVariantTransformRegistry.constructor | subprojects/dependency-management/src/main/java/org/gradle/api/internal/artifacts/transform/DefaultVariantTransformRegistry.java:62 | the registry starts with no registrations |
| Registry.DefaultVariantTransformRegistry.RegisterTransform | subprojects/dependency-management/src/main/java/org/gradle/api/internal/artifacts/transform/DefaultVariantTransformRegistry.java:87-98 | the legacy entry point: callback, action-type check, attribute checks, then one append with the raw parameters; every stored entry stays well-formed |
| Registry.DefaultVariantTransformRegistry.RegisterTypedTransform | subprojects/dependency-management/src/main/java/org/gradle/api/internal/artifacts/transform/DefaultVariantTransformRegistry.java:100-108 | the typed entry point validates the draft's action type and records the parameter object |
| Registry.DefaultVariantTransformRegistry.RegisterTransformAction | subprojects/dependency-management/src/main/java/org/gradle/api/internal/artifacts/transform/DefaultVariantTransformRegistry.java:110-116 | the action-type entry point validates its explicit action type and records a null parameter object |
| Registry.DefaultVariantTransformRegistry.Register | subprojects/dependency-management/src/main/java/org/gradle/api/internal/artifacts/transform/DefaultVariantTransformRegistry.java:118-124 | validate, then append one finalized registration; nothing is appended on failure |
| Registry.DefaultVariantTransformRegistry.GetTransforms | subprojects/dependency-management/src/main/java/org/gradle/api/internal/artifacts/transform/DefaultVariantTransformRegistry.java:144-146 | `getTransforms()` returns the registry's list itself; while the registry is valid every entry in it has non-empty `from` and `to` and no `to` name outside `from` |
| Registry.RegistrationAppendsOnlyOnSuccess | subprojects/dependency-management/src/main/java/org/gradle/api/internal/artifacts/transform/DefaultVariantTransformRegistry.java:92-97 | a failed registration leaves the list unchanged; a successful one appends exactly one entry at the end, earlier entries keeping their values and positions |
| Registry.AdmitIgnoresExistingEntries | subprojects/dependency-management/src/main/java/org/gradle/api/internal/artifacts/transform/DefaultVariantTransformRegistry.java:118-124 | validate-then-append appends at most one entry, and its outcome and entry do not depend on the entries already there |
| Registry.RegistrationIgnoresExistingEntries | subprojects/dependency-management/src/main/java/org/gradle/api/internal/artifacts/transform/DefaultVariantTransformRegistry.java:118-124 | for every entry point, the outcome and the entry appended do not depend on what is already registered, and at most one entry is appended |
| Registry.RunCallsAppendsAdmitted | subprojects/dependency-management/src/main/java/org/gradle/api/internal/artifacts/transform/DefaultVariantTransformRegistry.java:144-146 | after any series of calls the list is the initial list followed by the successful calls' registrations in call order |
| Registry.RegistryOnlyGrows | subprojects/dependency-management/src/main/java/org/gradle/api/internal/artifacts/transform/DefaultVariantTransformRegistry.java:62 | no series of registration calls removes or reorders an entry |
| Registry.TwoRegistrationsKeepOrder | subprojects/dependency-management/src/main/java/org/gradle/api/internal/artifacts/transform/DefaultVariantTransformRegistry.java:144-146 | two successful registrations made one after the other are listed in that order, after the earlier entries |
| Registry.AdmitKeepsEntriesWellFormed | subprojects/dependency-management/src/main/java/org/gradle/api/internal/artifacts/transform/DefaultVariantTransformRegistry.java:118-124 | validate-then-append keeps every stored entry with non-empty `from` and `to` and no `to` name outside `from` |
| Registry.RegistrationKeepsEntriesWellFormed | subprojects/dependency-management/src/main/java/org/gradle/api/internal/artifacts/transform/DefaultVariantTransformRegistry.java:132-142 | every stored registration has non-empty `from` and `to` and no `to` name outside `from` |
| Registry.MissingActionTypeReportedFirst | subprojects/dependency-management/src/main/java/org/gradle/api/internal/artifacts/transform/DefaultVariantTransformRegistry.java:119-120 | without an action type each entry point reports the missing action, even with no attributes, and appends nothing; a typed registration without an association always fails this way |
| Registry.DuplicateArtifactTransformRejected | subprojects/dependency-management/src/main/java/org/gradle/api/internal/artifacts/transform/DefaultVariantTransformRegistry.java:183-189 | a second `artifactTransform` after a non-null one fails the whole registration with the duplicate error and appends nothing |
| Registry.WithoutConfigActionNoParameters | subprojects/dependency-management/src/main/java/org/gradle/api/internal/artifacts/transform/DefaultVariantTransformRegistry.java:191-194 | an untyped registration without a config action records the empty parameter array |
| Registry.TypedActionTypeFromAssociation | subprojects/dependency-management/src/main/java/org/gradle/api/internal/artifacts/transform/DefaultVariantTransformRegistry.java:209-212 | a successful typed registration has the association's action type and the parameter object as the callback left it |
| Registry.ActionRegistrationOutcome | subprojects/dependency-management/src/main/java/org/gradle/api/internal/artifacts/transform/DefaultVariantTransformRegistry.java:111-142 | an action-type registration succeeds exactly when the type is given and the callback writes a `to` attribute, a `from` attribute, and no `to` name outside the `from` names; it fails with the missing-action error exactly when no type is given, and with each attribute error exactly when that check is the first unmet one |
| Registry.ActionRegistrationEntry | subprojects/dependency-management/src/main/java/org/gradle/api/internal/artifacts/transform/DefaultVariantTransformRegistry.java:111-116 | the entry a successful action-type registration appends has the given type, a null parameter object, and exactly the attributes the callback wrote, each with its last written value |
| Registry.AdmitWrittenOutcome | subprojects/dependency-management/src/main/java/org/gradle/api/internal/artifacts/transform/DefaultVariantTransformRegistry.java:118-142 | for a draft with an action type whose containers were written from empty, validation passes exactly when some `to` and some `from` name is written and every `to` name is a `from` name, and each attribute error is reported exactly when its check is the first unmet one |
| Registry.AdmitWrittenEntry | subprojects/dependency-management/src/main/java/org/gradle/api/internal/artifacts/transform/DefaultVariantTransformRegistry.java:118-124 | the entry such a draft is finalized into has the draft's action type and parameters and exactly the written names, each with its last written value |
| Registry.UntypedRegistrationOutcome | subprojects/dependency-management/src/main/java/org/gradle/api/internal/artifacts/transform/DefaultVariantTransformRegistry.java:87-92 | a legacy registration whose callback completes with an action type succeeds or fails on exactly the names its callback wrote, one iff per attribute outcome |
| Registry.UntypedRegistrationEntry | subprojects/dependency-management/src/main/java/org/gradle/api/internal/artifacts/transform/DefaultVariantTransformRegistry.java:92-96 | the entry a successful legacy registration appends holds exactly the attributes its callback wrote, each with its last written value, the action type of the callback's last `artifactTransform` call, and the parameter array of the config action that call passed (empty for none) |
| Registry.TypedRegistrationOutcome | subprojects/dependency-management/src/main/java/org/gradle/api/internal/artifacts/transform/DefaultVariantTransformRegistry.java:100-106 | a typed registration whose parameter type has an association succeeds or fails on exactly the names its callback wrote, one iff per attribute outcome |
| Registry.TypedRegistrationEntry | subprojects/dependency-management/src/main/java/org/gradle/api/internal/artifacts/transform/DefaultVariantTransformRegistry.java:100-106 | the entry a successful typed registration appends holds exactly the attributes its callback wrote, each with its last written value |
| Registry.JarToClassesExample | subprojects/dependency-management/src/main/java/org/gradle/api/internal/artifacts/transform/DefaultVariantTransformRegistry.java:87-98 | a jar-to-classes registration is accepted; a second one without a `to` attribute reports the missing `to` attribute and the list keeps one entry |

## Left out

- Instantiation, decoration and service injection of drafts and parameter objects (`decorateLenient`, `inject(services)`, `injectScheme`) are not modelled. These are reflective factories; the drafts are plain objects, and the parameter object's initial state is an argument.
- `DefaultTransformationRegistration.create` is not part of this model. `create` may throw after validation passes; that error is not modelled. A registration records the attributes, action type and parameters it was built from. Parameter isolation, value snapshotting, class-loader hashing and the snapshot error are left out.
- The property walker and the action metadata store (`DefaultVariantTransformRegistry.java` lines 83-84 and 122) are annotation-driven reflection and are left out.
- `TransformerInvoker` is only passed through to `create` and is left out.
- Attribute containers are maps from attribute name to value. Typed attribute keys, value type checks and `asImmutable` are not modelled.
- A config action is modelled by the parameter list it leaves on a fresh `ActionConfiguration`. When it runs and what else it does are not modelled.
- Exceptions thrown by user callbacks themselves, as opposed to the registry's own, are not modelled.
- Drafts.UntypedRegistration.Execute: on failure it states only the error, not the discarded draft's partial state.
- The draft's `getFrom()`/`getTo()` container references and the parameter object's identity are modelled as values. Aliasing between the parameter object and the typed draft is therefore not captured.
- Registry.DefaultVariantTransformRegistry.GetTransforms: the result is a value, not the live list the registry returns as an `Iterable`. An iterable obtained earlier does not see later appends, and removal through its iterator is not modelled, so the registry's list changes only through registration calls.
- Concurrent reads of the registry are not modelled.
