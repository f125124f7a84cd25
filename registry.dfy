/** The registry: an append-only, ordered list of finalized registrations
    and the three entry points that add to it. Every entry point runs the
    callback on a new draft, validates the draft, and only then appends. */
module Registry {
  import opened Wrappers
  import opened TransformModel
  import opened Validation
  import opened Drafts

  /** A parameter type, with the action type that its TransformAction
      association names, if it has one. */
  datatype ParameterType = ParameterType(name: ClassName, transformAction: Option<ClassName>)

  /** What one registration call reports, and the registry's list after it. */
  datatype Step = Step(outcome: Outcome<ConfigError>, transforms: seq<Registration>)

  /** A call of one of the three entry points, with its callback.
      `instance` is the state of the parameter object the registry
      instantiates for a typed registration. */
  datatype Call =
    | UntypedCall(edits: seq<UntypedEdit>)
    | TypedCall(parameterType: ParameterType, instance: PropertyValues, typedEdits: seq<TypedEdit>)
    | ActionCall(actionType: Option<ClassName>, attributeEdits: seq<AttributeEdit>)

  /** What a completed draft hands to validation and finalization. */
  datatype Prepared = Prepared(actionType: Option<ClassName>, spec: AttributeSpec, parameters: Parameters)

  /** Runs a call's callback on a new draft: the draft's action type,
      attributes and parameters, or the exception the callback threw. */
  function Prepare(call: Call): Result<Prepared, ConfigError>
  {
    match call
    case UntypedCall(edits) =>
      (match RunUntyped(NewUntypedDraft, edits)
       case Failure(e) => Failure(e)
       case Success(d) => Success(Prepared(d.actionType, d.spec, LegacyParameters(TransformParameters(d)))))
    case TypedCall(pt, instance, edits) =>
      var d := RunTyped(NewTypedDraft(instance, pt.transformAction), edits);
      Success(Prepared(d.actionType, d.spec, ParameterObject(Some(d.parameters))))
    case ActionCall(actionType, edits) =>
      Success(Prepared(actionType, ApplyAttributeEdits(EmptySpec, edits), ParameterObject(None)))
  }

  /** Validate-then-append, the path every entry point ends in. */
  function Admit(transforms: seq<Registration>, p: Prepared): Step
  {
    match Validate(p.actionType, p.spec)
    case Fail(e) => Step(Fail(e), transforms)
    case Pass => Step(Pass, transforms + [Registration(p.spec.from, p.spec.to, p.actionType.value, p.parameters)])
  }

  /** One registration call: its outcome and the registry's list after it. */
  function RegisterCall(transforms: seq<Registration>, call: Call): Step
  {
    match Prepare(call)
    case Failure(e) => Step(Fail(e), transforms)
    case Success(p) => Admit(transforms, p)
  }

  /** The registry's list after a series of calls, failed ones included. */
  function RunCalls(transforms: seq<Registration>, calls: seq<Call>): seq<Registration>
    decreases |calls|
  {
    if calls == [] then transforms else RunCalls(RegisterCall(transforms, calls[0]).transforms, calls[1..])
  }

  /** The registrations the successful calls among `calls` produce, in call order. */
  function Admitted(calls: seq<Call>): seq<Registration>
    decreases |calls|
  {
    if calls == [] then [] else RegisterCall([], calls[0]).transforms + Admitted(calls[1..])
  }

  /** Every stored registration satisfies the admission conditions. */
  predicate AllWellFormed(transforms: seq<Registration>)
  {
    forall k :: 0 <= k < |transforms| ==> WellFormed(AttributeSpec(transforms[k].from, transforms[k].to))
  }

  // ---------------------------------------------------------------------
  // Properties

  /** Validate-then-append appends at most one entry, and what it reports
      and appends does not depend on the entries already there. */
  lemma AdmitIgnoresExistingEntries(transforms: seq<Registration>, p: Prepared)
    ensures Admit(transforms, p).outcome == Admit([], p).outcome
    ensures Admit(transforms, p).transforms == transforms + Admit([], p).transforms
    ensures |Admit([], p).transforms| == if Admit([], p).outcome.Pass? then 1 else 0
  {
    if Validate(p.actionType, p.spec).Pass? {
      var entry := Registration(p.spec.from, p.spec.to, p.actionType.value, p.parameters);
      assert [] + [entry] == [entry];
    }
  }

  /** Whether a call succeeds, and what it appends, does not depend on what
      is already registered; it appends at most one entry. */
  lemma RegistrationIgnoresExistingEntries(transforms: seq<Registration>, call: Call)
    ensures RegisterCall(transforms, call).outcome == RegisterCall([], call).outcome
    ensures RegisterCall(transforms, call).transforms == transforms + RegisterCall([], call).transforms
    ensures |RegisterCall([], call).transforms| == if RegisterCall([], call).outcome.Pass? then 1 else 0
  {
    match Prepare(call)
    case Failure(_) =>
    case Success(p) => AdmitIgnoresExistingEntries(transforms, p);
  }

  /** A registration either fails and leaves the list as it was, or succeeds
      and appends exactly one entry at the end, every earlier entry keeping
      its value and position. */
  lemma RegistrationAppendsOnlyOnSuccess(transforms: seq<Registration>, call: Call)
    ensures var s := RegisterCall(transforms, call);
      && (s.outcome.Fail? ==> s.transforms == transforms)
      && (s.outcome.Pass? ==> |s.transforms| == |transforms| + 1 && s.transforms[..|transforms|] == transforms)
  {
    RegistrationIgnoresExistingEntries(transforms, call);
    var s := RegisterCall(transforms, call);
    assert s.transforms[..|transforms|] == transforms;
  }

  lemma ConcatAssociates(a: seq<Registration>, b: seq<Registration>, c: seq<Registration>)
    ensures (a + b) + c == a + (b + c)
  {
  }

  /** After any series of calls the list is the initial list followed by the
      registrations of the successful calls, in the order they were made. */
  lemma {:induction false} RunCallsAppendsAdmitted(transforms: seq<Registration>, calls: seq<Call>)
    ensures RunCalls(transforms, calls) == transforms + Admitted(calls)
    decreases |calls|
  {
    if calls != [] {
      var call, rest := calls[0], calls[1..];
      var appended := RegisterCall([], call).transforms;
      RegistrationIgnoresExistingEntries(transforms, call);
      RunCallsAppendsAdmitted(transforms + appended, rest);
      calc {
        RunCalls(transforms, calls);
        RunCalls(transforms + appended, rest);
        (transforms + appended) + Admitted(rest);
        { ConcatAssociates(transforms, appended, Admitted(rest)); }
        transforms + (appended + Admitted(rest));
        transforms + Admitted(calls);
      }
    }
  }

  /** The registry only grows: no call removes or reorders an entry. */
  lemma RegistryOnlyGrows(transforms: seq<Registration>, calls: seq<Call>)
    ensures transforms <= RunCalls(transforms, calls)
  {
    RunCallsAppendsAdmitted(transforms, calls);
  }

  /** Two successful registrations made one after the other are listed in
      that order, after the entries already there. */
  lemma TwoRegistrationsKeepOrder(transforms: seq<Registration>, first: Call, second: Call,
                                  firstEntry: Registration, secondEntry: Registration)
    requires RegisterCall([], first) == Step(Pass, [firstEntry])
    requires RegisterCall([], second) == Step(Pass, [secondEntry])
    ensures RegisterCall(RegisterCall(transforms, first).transforms, second).transforms
            == transforms + [firstEntry, secondEntry]
  {
    RegistrationIgnoresExistingEntries(transforms, first);
    RegistrationIgnoresExistingEntries(transforms + [firstEntry], second);
    assert (transforms + [firstEntry]) + [secondEntry] == transforms + [firstEntry, secondEntry];
  }

  /** Validate-then-append only ever adds an entry that passed admission. */
  lemma AdmitKeepsEntriesWellFormed(transforms: seq<Registration>, p: Prepared)
    requires AllWellFormed(transforms)
    ensures AllWellFormed(Admit(transforms, p).transforms)
  {
    var s := Admit(transforms, p);
    if s.outcome.Pass? {
      assert WellFormed(p.spec);
      forall k | 0 <= k < |s.transforms|
        ensures WellFormed(AttributeSpec(s.transforms[k].from, s.transforms[k].to))
      {
        if k < |transforms| {
          assert s.transforms[k] == transforms[k];
        }
      }
    }
  }

  /** Every entry the registry holds passed admission. */
  lemma RegistrationKeepsEntriesWellFormed(transforms: seq<Registration>, call: Call)
    requires AllWellFormed(transforms)
    ensures AllWellFormed(RegisterCall(transforms, call).transforms)
  {
    match Prepare(call)
    case Failure(_) =>
    case Success(p) => AdmitKeepsEntriesWellFormed(transforms, p);
  }

  /** Without an action type every entry point reports the missing action
      type, even when no attribute was given, and appends nothing. */
  lemma MissingActionTypeReportedFirst(transforms: seq<Registration>, edits: seq<UntypedEdit>,
                                       parameterType: ParameterType, instance: PropertyValues,
                                       typedEdits: seq<TypedEdit>, attributeEdits: seq<AttributeEdit>)
    ensures RunUntyped(NewUntypedDraft, edits).Success? && RunUntyped(NewUntypedDraft, edits).value.actionType == None ==>
              RegisterCall(transforms, UntypedCall(edits)) == Step(Fail(MissingActionType), transforms)
    ensures parameterType.transformAction == None ==>
              RegisterCall(transforms, TypedCall(parameterType, instance, typedEdits)) == Step(Fail(MissingActionType), transforms)
    ensures RegisterCall(transforms, ActionCall(None, attributeEdits)) == Step(Fail(MissingActionType), transforms)
  {
  }

  /** An untyped callback that calls artifactTransform again after storing a
      non-null action type makes the registration fail with the duplicate
      error, and nothing is appended. */
  lemma DuplicateArtifactTransformRejected(transforms: seq<Registration>, edits: seq<UntypedEdit>, i: nat, j: nat)
    requires i < j < |edits|
    requires SetsActionType(edits[i]) && edits[i].transform.Some? && SetsActionType(edits[j])
    ensures RegisterCall(transforms, UntypedCall(edits)) == Step(Fail(DuplicateArtifactTransform), transforms)
  {
    CallbackFailsIffArtifactTransformRepeated(NewUntypedDraft, edits);
  }

  /** An untyped callback that never supplies a config action registers the
      empty parameter array. */
  lemma WithoutConfigActionNoParameters(transforms: seq<Registration>, edits: seq<UntypedEdit>)
    requires forall k :: 0 <= k < |edits| && edits[k].ArtifactTransformWithConfig? ==> edits[k].config == None
    ensures var s := RegisterCall(transforms, UntypedCall(edits));
      s.outcome.Pass? ==> s.transforms[|transforms|].parameters == LegacyParameters(NoParameters)
  {
    NoConfigActionStaysUnset(NewUntypedDraft, edits);
  }

  /** A typed registration takes its action type from the parameter type's
      association, and records the parameter object as the callback left it. */
  lemma TypedActionTypeFromAssociation(transforms: seq<Registration>, parameterType: ParameterType,
                                       instance: PropertyValues, edits: seq<TypedEdit>)
    ensures var s := RegisterCall(transforms, TypedCall(parameterType, instance, edits));
      s.outcome.Pass? ==>
        && parameterType.transformAction.Some?
        && s.transforms[|transforms|].actionType == parameterType.transformAction.value
        && s.transforms[|transforms|].parameters
           == ParameterObject(Some(RunTyped(NewTypedDraft(instance, parameterType.transformAction), edits).parameters))
  {
  }

  /** An action-type registration is judged by its explicit action type and
      by the attributes its callback writes: it succeeds exactly when the
      type is given, some `to` and some `from` attribute are written, and
      every `to` name is also written as a `from` name; each failure reports
      the first of these that does not hold. */
  lemma ActionRegistrationOutcome(transforms: seq<Registration>, actionType: Option<ClassName>, edits: seq<AttributeEdit>)
    ensures var s := RegisterCall(transforms, ActionCall(actionType, edits));
      && (s.outcome == Pass <==>
            actionType.Some? && ToNames(edits) != {} && FromNames(edits) != {} && ToNames(edits) <= FromNames(edits))
      && (s.outcome == Fail(MissingActionType) <==> actionType.None?)
      && (s.outcome == Fail(MissingToAttribute) <==> actionType.Some? && ToNames(edits) == {})
      && (s.outcome == Fail(MissingFromAttribute) <==>
            actionType.Some? && ToNames(edits) != {} && FromNames(edits) == {})
      && (s.outcome == Fail(ToAttributeNotInFrom) <==>
            actionType.Some? && ToNames(edits) != {} && FromNames(edits) != {} && !(ToNames(edits) <= FromNames(edits)))
  {
    var spec := ApplyAttributeEdits(EmptySpec, edits);
    EditsOnEmptySpec(edits);
    assert spec.to == map[] <==> ToNames(edits) == {} by {
      if spec.to == map[] { assert spec.to.Keys == {}; }
      if ToNames(edits) == {} { assert spec.to.Keys == {}; }
    }
    assert spec.from == map[] <==> FromNames(edits) == {} by {
      if spec.from == map[] { assert spec.from.Keys == {}; }
      if FromNames(edits) == {} { assert spec.from.Keys == {}; }
    }
  }

  /** A successful action-type registration appends an entry holding the
      given action type, no parameter object, and exactly the attributes the
      callback wrote, each with the value of its last write. */
  lemma ActionRegistrationEntry(transforms: seq<Registration>, actionType: Option<ClassName>, edits: seq<AttributeEdit>)
    ensures var s := RegisterCall(transforms, ActionCall(actionType, edits));
      s.outcome.Pass? ==>
        && |s.transforms| == |transforms| + 1
        && var entry := s.transforms[|transforms|];
        && entry.actionType == actionType.value
        && entry.parameters == ParameterObject(None)
        && entry.from.Keys == FromNames(edits)
        && entry.to.Keys == ToNames(edits)
        && (forall n :: n in FromNames(edits) ==> entry.from[n] == LastFrom(edits, n))
        && (forall n :: n in ToNames(edits) ==> entry.to[n] == LastTo(edits, n))
  {
    EditsOnEmptySpec(edits);
  }

  /** Validate-then-append of a draft with an action type, whose containers
      are the ones a run of attribute writes makes from empty ones: the
      attribute verdict depends only on the names written. */
  lemma AdmitWrittenOutcome(transforms: seq<Registration>, actionType: ClassName, edits: seq<AttributeEdit>,
                            parameters: Parameters)
    ensures var s := Admit(transforms, Prepared(Some(actionType), ApplyAttributeEdits(EmptySpec, edits), parameters));
      && (s.outcome == Pass <==> ToNames(edits) != {} && FromNames(edits) != {} && ToNames(edits) <= FromNames(edits))
      && (s.outcome == Fail(MissingToAttribute) <==> ToNames(edits) == {})
      && (s.outcome == Fail(MissingFromAttribute) <==> ToNames(edits) != {} && FromNames(edits) == {})
      && (s.outcome == Fail(ToAttributeNotInFrom) <==>
            ToNames(edits) != {} && FromNames(edits) != {} && !(ToNames(edits) <= FromNames(edits)))
  {
    var spec := ApplyAttributeEdits(EmptySpec, edits);
    EditsOnEmptySpec(edits);
    assert spec.to == map[] <==> ToNames(edits) == {} by {
      if spec.to == map[] { assert spec.to.Keys == {}; }
      if ToNames(edits) == {} { assert spec.to.Keys == {}; }
    }
    assert spec.from == map[] <==> FromNames(edits) == {} by {
      if spec.from == map[] { assert spec.from.Keys == {}; }
      if FromNames(edits) == {} { assert spec.from.Keys == {}; }
    }
  }

  /** The entry such a draft is finalized into, on success: its action type
      and parameters, and exactly the written names with their last values. */
  lemma AdmitWrittenEntry(transforms: seq<Registration>, actionType: ClassName, edits: seq<AttributeEdit>,
                          parameters: Parameters)
    ensures var s := Admit(transforms, Prepared(Some(actionType), ApplyAttributeEdits(EmptySpec, edits), parameters));
      s.outcome.Pass? ==>
        && |s.transforms| == |transforms| + 1
        && var entry := s.transforms[|transforms|];
        && entry.actionType == actionType
        && entry.parameters == parameters
        && entry.from.Keys == FromNames(edits)
        && entry.to.Keys == ToNames(edits)
        && (forall n :: n in FromNames(edits) ==> entry.from[n] == LastFrom(edits, n))
        && (forall n :: n in ToNames(edits) ==> entry.to[n] == LastTo(edits, n))
  {
    EditsOnEmptySpec(edits);
  }

  /** A legacy registration whose callback completes with an action type is
      judged by the attribute writes of its callback alone. */
  lemma UntypedRegistrationOutcome(transforms: seq<Registration>, edits: seq<UntypedEdit>)
    ensures var r := RunUntyped(NewUntypedDraft, edits);
      var s := RegisterCall(transforms, UntypedCall(edits));
      var w := UntypedWrites(edits);
      r.Success? && r.value.actionType.Some? ==>
        && (s.outcome == Pass <==> ToNames(w) != {} && FromNames(w) != {} && ToNames(w) <= FromNames(w))
        && (s.outcome == Fail(MissingToAttribute) <==> ToNames(w) == {})
        && (s.outcome == Fail(MissingFromAttribute) <==> ToNames(w) != {} && FromNames(w) == {})
        && (s.outcome == Fail(ToAttributeNotInFrom) <==>
              ToNames(w) != {} && FromNames(w) != {} && !(ToNames(w) <= FromNames(w)))
  {
    var r := RunUntyped(NewUntypedDraft, edits);
    UntypedCallbackWrites(NewUntypedDraft, edits);
    if r.Success? && r.value.actionType.Some? {
      AdmitWrittenOutcome(transforms, r.value.actionType.value, UntypedWrites(edits),
                          LegacyParameters(TransformParameters(r.value)));
    }
  }

  /** The entry a successful legacy registration appends holds exactly the
      attributes its callback wrote, each with its last written value, the
      action type of its last artifactTransform call, and the parameter array
      of the config action that call passed. */
  lemma UntypedRegistrationEntry(transforms: seq<Registration>, edits: seq<UntypedEdit>)
    ensures var s := RegisterCall(transforms, UntypedCall(edits));
      var w := UntypedWrites(edits);
      s.outcome.Pass? ==>
        && |s.transforms| == |transforms| + 1
        && var entry := s.transforms[|transforms|];
        && entry.from.Keys == FromNames(w)
        && entry.to.Keys == ToNames(w)
        && (forall n :: n in FromNames(w) ==> entry.from[n] == LastFrom(w, n))
        && (forall n :: n in ToNames(w) ==> entry.to[n] == LastTo(w, n))
        && exists j :: LastArtifactTransformAt(edits, j)
             && edits[j].transform == Some(entry.actionType)
             && entry.parameters == LegacyParameters(ConfigParameters(ConfigOf(edits[j])))
  {
    var r := RunUntyped(NewUntypedDraft, edits);
    UntypedCallbackWrites(NewUntypedDraft, edits);
    RunUntypedStoresLastCall(NewUntypedDraft, edits);
    if r.Success? && r.value.actionType.Some? {
      AdmitWrittenEntry(transforms, r.value.actionType.value, UntypedWrites(edits),
                        LegacyParameters(TransformParameters(r.value)));
    }
  }

  /** A typed registration whose parameter type has an association is judged
      by the attribute writes of its callback alone. */
  lemma TypedRegistrationOutcome(transforms: seq<Registration>, parameterType: ParameterType,
                                 instance: PropertyValues, edits: seq<TypedEdit>)
    ensures var s := RegisterCall(transforms, TypedCall(parameterType, instance, edits));
      var w := TypedWrites(edits);
      parameterType.transformAction.Some? ==>
        && (s.outcome == Pass <==> ToNames(w) != {} && FromNames(w) != {} && ToNames(w) <= FromNames(w))
        && (s.outcome == Fail(MissingToAttribute) <==> ToNames(w) == {})
        && (s.outcome == Fail(MissingFromAttribute) <==> ToNames(w) != {} && FromNames(w) == {})
        && (s.outcome == Fail(ToAttributeNotInFrom) <==>
              ToNames(w) != {} && FromNames(w) != {} && !(ToNames(w) <= FromNames(w)))
  {
    var d := RunTyped(NewTypedDraft(instance, parameterType.transformAction), edits);
    TypedCallbackWrites(NewTypedDraft(instance, parameterType.transformAction), edits);
    if parameterType.transformAction.Some? {
      AdmitWrittenOutcome(transforms, parameterType.transformAction.value, TypedWrites(edits),
                          ParameterObject(Some(d.parameters)));
    }
  }

  /** The entry a successful typed registration appends holds exactly the
      attributes its callback wrote, each with its last written value. */
  lemma TypedRegistrationEntry(transforms: seq<Registration>, parameterType: ParameterType,
                               instance: PropertyValues, edits: seq<TypedEdit>)
    ensures var s := RegisterCall(transforms, TypedCall(parameterType, instance, edits));
      var w := TypedWrites(edits);
      s.outcome.Pass? ==>
        && |s.transforms| == |transforms| + 1
        && var entry := s.transforms[|transforms|];
        && entry.from.Keys == FromNames(w)
        && entry.to.Keys == ToNames(w)
        && (forall n :: n in FromNames(w) ==> entry.from[n] == LastFrom(w, n))
        && (forall n :: n in ToNames(w) ==> entry.to[n] == LastTo(w, n))
  {
    var d := RunTyped(NewTypedDraft(instance, parameterType.transformAction), edits);
    TypedCallbackWrites(NewTypedDraft(instance, parameterType.transformAction), edits);
    if parameterType.transformAction.Some? {
      AdmitWrittenEntry(transforms, parameterType.transformAction.value, TypedWrites(edits),
                        ParameterObject(Some(d.parameters)));
    }
  }

  /** Example: a jar-to-classes registration is accepted; a second
      one without a `to` attribute is refused and the list keeps one entry. */
  lemma JarToClassesExample()
    ensures var first := RegisterCall([], UntypedCall([
        UntypedAttribute(SetFrom("artifactType", "jar")),
        UntypedAttribute(SetTo("artifactType", "classes")),
        ArtifactTransform(Some("Unzip"))]));
      && first.outcome == Pass
      && first.transforms == [Registration(map["artifactType" := "jar"], map["artifactType" := "classes"], "Unzip",
                                           LegacyParameters([]))]
      && RegisterCall(first.transforms, UntypedCall([
           UntypedAttribute(SetFrom("artifactType", "jar")),
           ArtifactTransform(Some("Unzip"))]))
         == Step(Fail(MissingToAttribute), first.transforms)
  {
  }

  // ---------------------------------------------------------------------
  // The registry object

  class DefaultVariantTransformRegistry {
    var transforms: seq<Registration>

    ghost predicate Valid()
      reads this
    {
      AllWellFormed(transforms)
    }

    constructor ()
      ensures Valid() && transforms == []
    {
      transforms := [];
    }

    /** getTransforms: the registrations in the order they were made, each
        satisfying the admission conditions. */
    function GetTransforms(): (r: seq<Registration>)
      reads this
      ensures r == transforms
      ensures Valid() ==> forall k :: 0 <= k < |r| ==> WellFormed(AttributeSpec(r[k].from, r[k].to))
    {
      transforms
    }

    /** registerTransform(action). */
    method RegisterTransform(edits: seq<UntypedEdit>) returns (outcome: Outcome<ConfigError>)
      requires Valid()
      modifies this
      ensures Valid()
      ensures Step(outcome, transforms) == RegisterCall(old(transforms), UntypedCall(edits))
    {
      var registration := new UntypedRegistration();
      outcome := registration.Execute(edits);
      if outcome.Fail? {
        return;
      }
      outcome := ValidateActionType(registration.actionType);
      if outcome.Fail? {
        return;
      }
      outcome := ValidateAttributes(registration.recording.Spec());
      if outcome.Fail? {
        return;
      }
      var parameters := registration.GetTransformParameters();
      var finalized := Registration(registration.recording.from, registration.recording.to,
                                    registration.actionType.value, LegacyParameters(parameters));
      transforms := transforms + [finalized];
    }

    /** registerTransform(parameterType, action). */
    method RegisterTypedTransform(parameterType: ParameterType, instance: PropertyValues, edits: seq<TypedEdit>)
      returns (outcome: Outcome<ConfigError>)
      requires Valid()
      modifies this
      ensures Valid()
      ensures Step(outcome, transforms) == RegisterCall(old(transforms), TypedCall(parameterType, instance, edits))
    {
      var registration := new TypedRegistration(instance, parameterType.transformAction);
      registration.Execute(edits);
      outcome := Register(registration.recording, registration.actionType,
                          ParameterObject(Some(registration.GetParameters())));
    }

    /** registerTransformAction(actionType, action). */
    method RegisterTransformAction(actionType: Option<ClassName>, edits: seq<AttributeEdit>)
      returns (outcome: Outcome<ConfigError>)
      requires Valid()
      modifies this
      ensures Valid()
      ensures Step(outcome, transforms) == RegisterCall(old(transforms), ActionCall(actionType, edits))
    {
      var registration := new RecordingRegistration();
      registration.Execute(edits);
      outcome := Register(registration, actionType, ParameterObject(None));
    }

    /** register: validate, finalize, append. */
    method Register(registration: RecordingRegistration, actionType: Option<ClassName>, parameters: Parameters)
      returns (outcome: Outcome<ConfigError>)
      requires Valid()
      modifies this
      ensures Valid()
      ensures Step(outcome, transforms) == Admit(old(transforms), Prepared(actionType, registration.Spec(), parameters))
    {
      outcome := ValidateActionType(actionType);
      if outcome.Fail? {
        return;
      }
      outcome := ValidateAttributes(registration.Spec());
      if outcome.Fail? {
        return;
      }
      var finalized := Registration(registration.from, registration.to, actionType.value, parameters);
      transforms := transforms + [finalized];
    }
  }
}
