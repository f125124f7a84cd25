/** The drafts a registration callback fills in: RecordingRegistration (the
    `from` and `to` containers), UntypedRegistration (the legacy
    ArtifactTransform binding) and TypedRegistration (a parameter object).
    ActionRegistration adds nothing to RecordingRegistration, so the
    action-type entry point uses RecordingRegistration itself.

    Each class has a value view (`Spec()`, `Draft()`). The pure functions
    over those values are the reference for what a callback does, and each
    class method is proved to follow its function:
    `ArtifactTransform`/`ArtifactTransformWithConfig` follow
    `SetArtifactTransform`, `Attribute` follows `ApplyAttributeEdit`,
    `GetTransformParameters` follows `TransformParameters`, and the three
    `Execute` methods follow `ApplyAttributeEdits`, `RunUntyped` and
    `RunTyped`. The registry's `Register` follows `Admit` in the same way. */
module Drafts {
  import opened Wrappers
  import opened TransformModel

  // ---------------------------------------------------------------------
  // Untyped drafts

  /** A config action, seen through its effect: the parameter list it
      leaves on a fresh ActionConfiguration. */
  datatype ConfigAction = ConfigAction(params: seq<Value>)

  /** The parameters of an untyped registration that has no config action. */
  const NoParameters: seq<Value> := []

  /** The state of an UntypedRegistration. */
  datatype UntypedDraft = UntypedDraft(
    spec: AttributeSpec,
    actionType: Option<ClassName>,
    configAction: Option<ConfigAction>)

  const NewUntypedDraft := UntypedDraft(EmptySpec, None, None)

  /** One step of an untyped registration callback. */
  datatype UntypedEdit =
    | UntypedAttribute(edit: AttributeEdit)
      /** artifactTransform(type) */
    | ArtifactTransform(transform: Option<ClassName>)
      /** artifactTransform(type, config) */
    | ArtifactTransformWithConfig(transform: Option<ClassName>, config: Option<ConfigAction>)

  predicate SetsActionType(e: UntypedEdit)
  {
    e.ArtifactTransform? || e.ArtifactTransformWithConfig?
  }

  /** artifactTransform(type, config): refused once an action type is
      stored, and then nothing is changed; otherwise both fields are set. */
  function SetArtifactTransform(d: UntypedDraft, transform: Option<ClassName>, config: Option<ConfigAction>)
    : (r: Result<UntypedDraft, ConfigError>)
    ensures r.Failure? <==> d.actionType.Some?
    ensures r.Failure? ==> r.error == DuplicateArtifactTransform
    ensures r.Success? ==> r.value.spec == d.spec && r.value.actionType == transform && r.value.configAction == config
  {
    if d.actionType.Some? then Failure(DuplicateArtifactTransform)
    else Success(d.(actionType := transform, configAction := config))
  }

  function ApplyUntypedEdit(d: UntypedDraft, e: UntypedEdit): Result<UntypedDraft, ConfigError>
  {
    match e
    case UntypedAttribute(a) => Success(d.(spec := ApplyAttributeEdit(d.spec, a)))
    case ArtifactTransform(t) => SetArtifactTransform(d, t, None)
    case ArtifactTransformWithConfig(t, c) => SetArtifactTransform(d, t, c)
  }

  /** Runs an untyped callback; the first exception ends it. The only
      exception a draft raises is the duplicate action type, and a stored
      action type is never replaced: it keeps its config action too. */
  function RunUntyped(d: UntypedDraft, edits: seq<UntypedEdit>): (r: Result<UntypedDraft, ConfigError>)
    ensures r.Failure? ==> r.error == DuplicateArtifactTransform
    ensures r.Success? && d.actionType.Some? ==>
              r.value.actionType == d.actionType && r.value.configAction == d.configAction
    decreases |edits|
  {
    if edits == [] then Success(d)
    else
      match ApplyUntypedEdit(d, edits[0])
      case Failure(e) => Failure(e)
      case Success(next) => RunUntyped(next, edits[1..])
  }

  /** The config action an artifactTransform call passes: none for the
      one-argument form. */
  function ConfigOf(e: UntypedEdit): Option<ConfigAction>
    requires SetsActionType(e)
  {
    if e.ArtifactTransform? then None else e.config
  }

  /** The parameter array a config action leads to, as getTransformParameters
      computes it. */
  function ConfigParameters(c: Option<ConfigAction>): seq<Value>
  {
    match c
    case None => NoParameters
    case Some(a) => a.params
  }

  /** The callback makes no artifactTransform call. */
  predicate NoArtifactTransform(edits: seq<UntypedEdit>)
  {
    forall k :: 0 <= k < |edits| ==> !SetsActionType(edits[k])
  }

  /** `edits[j]` is the callback's last artifactTransform call. */
  predicate LastArtifactTransformAt(edits: seq<UntypedEdit>, j: int)
  {
    && 0 <= j < |edits|
    && SetsActionType(edits[j])
    && forall k :: j < k < |edits| ==> !SetsActionType(edits[k])
  }

  /** A successful untyped callback leaves the action type and config action
      of its last artifactTransform call, or those the draft had when it makes
      no such call. */
  lemma {:induction false} RunUntypedStoresLastCall(d: UntypedDraft, edits: seq<UntypedEdit>)
    ensures var r := RunUntyped(d, edits);
      r.Success? ==>
        || (NoArtifactTransform(edits) && r.value.actionType == d.actionType && r.value.configAction == d.configAction)
        || exists j :: LastArtifactTransformAt(edits, j)
             && r.value.actionType == edits[j].transform && r.value.configAction == ConfigOf(edits[j])
    decreases |edits|
  {
    if edits != [] {
      var e, rest := edits[0], edits[1..];
      match ApplyUntypedEdit(d, e)
      case Failure(_) =>
      case Success(next) =>
        assert RunUntyped(d, edits) == RunUntyped(next, rest);
        RunUntypedStoresLastCall(next, rest);
        var r := RunUntyped(next, rest);
        if r.Success? {
          if NoArtifactTransform(rest) && r.value.actionType == next.actionType && r.value.configAction == next.configAction {
            if SetsActionType(e) {
              assert LastArtifactTransformAt(edits, 0) by {
                forall k | 0 < k < |edits| ensures !SetsActionType(edits[k]) {
                  assert edits[k] == rest[k - 1];
                }
              }
            } else {
              assert NoArtifactTransform(edits) by {
                forall k | 0 <= k < |edits| ensures !SetsActionType(edits[k]) {
                  if k > 0 { assert edits[k] == rest[k - 1]; }
                }
              }
            }
          } else {
            var j :| LastArtifactTransformAt(rest, j)
              && r.value.actionType == rest[j].transform && r.value.configAction == ConfigOf(rest[j]);
            assert edits[j + 1] == rest[j];
            assert LastArtifactTransformAt(edits, j + 1) by {
              forall k | j + 1 < k < |edits| ensures !SetsActionType(edits[k]) {
                assert edits[k] == rest[k - 1];
              }
            }
          }
        }
    }
  }

  /** The attribute writes of an untyped callback, in the order it makes them. */
  function UntypedWrites(edits: seq<UntypedEdit>): (w: seq<AttributeEdit>)
    ensures forall a :: a in w <==> UntypedAttribute(a) in edits
    decreases |edits|
  {
    if edits == [] then []
    else
      assert edits == [edits[0]] + edits[1..];
      (match edits[0]
       case UntypedAttribute(a) => [a]
       case _ => []) + UntypedWrites(edits[1..])
  }

  /** A successful untyped callback leaves the containers as its attribute
      writes, applied in order, make them; its artifactTransform calls do
      not touch them. */
  lemma {:induction false} UntypedCallbackWrites(d: UntypedDraft, edits: seq<UntypedEdit>)
    ensures RunUntyped(d, edits).Success? ==>
              RunUntyped(d, edits).value.spec == ApplyAttributeEdits(d.spec, UntypedWrites(edits))
    decreases |edits|
  {
    if edits != [] {
      var rest := edits[1..];
      match ApplyUntypedEdit(d, edits[0])
      case Failure(_) =>
      case Success(next) =>
        UntypedCallbackWrites(next, rest);
        assert RunUntyped(d, edits) == RunUntyped(next, rest);
        if edits[0].UntypedAttribute? {
          assert UntypedWrites(edits) == [edits[0].edit] + UntypedWrites(rest);
          ApplyAttributeEditsCons(d.spec, edits[0].edit, UntypedWrites(rest));
        } else {
          assert UntypedWrites(edits) == UntypedWrites(rest);
        }
    }
  }

  /** getTransformParameters: the empty array without a config action,
      otherwise what the config action produces. */
  function TransformParameters(d: UntypedDraft): seq<Value>
  {
    ConfigParameters(d.configAction)
  }

  /** The callback calls artifactTransform while a non-null action type is
      already stored: either one was stored before the callback began, or an
      earlier call of the callback stored one. */
  predicate CallsArtifactTransformTwice(d: UntypedDraft, edits: seq<UntypedEdit>)
  {
    || (d.actionType.Some? && exists j :: 0 <= j < |edits| && SetsActionType(edits[j]))
    || exists i, j :: 0 <= i < j < |edits| && SetsActionType(edits[i]) && edits[i].transform.Some? && SetsActionType(edits[j])
  }

  /** An untyped callback fails exactly when it calls artifactTransform a
      second time after a non-null action type was stored. */
  lemma {:induction false} CallbackFailsIffArtifactTransformRepeated(d: UntypedDraft, edits: seq<UntypedEdit>)
    ensures RunUntyped(d, edits).Failure? <==> CallsArtifactTransformTwice(d, edits)
    decreases |edits|
  {
    if edits != [] {
      var e, rest := edits[0], edits[1..];
      match ApplyUntypedEdit(d, e)
      case Failure(_) =>
        assert SetsActionType(edits[0]);
      case Success(next) =>
        CallbackFailsIffArtifactTransformRepeated(next, rest);
        if CallsArtifactTransformTwice(d, edits) {
          if d.actionType.Some? && exists j :: 0 <= j < |edits| && SetsActionType(edits[j]) {
            var j :| 0 <= j < |edits| && SetsActionType(edits[j]);
            assert j > 0 && SetsActionType(rest[j - 1]);
          } else {
            var i, j :| 0 <= i < j < |edits| && SetsActionType(edits[i]) && edits[i].transform.Some? && SetsActionType(edits[j]);
            if i == 0 {
              assert next.actionType.Some? && SetsActionType(rest[j - 1]);
            } else {
              assert SetsActionType(rest[i - 1]) && rest[i - 1].transform.Some? && SetsActionType(rest[j - 1]);
            }
          }
        }
        if CallsArtifactTransformTwice(next, rest) {
          if next.actionType.Some? && exists j :: 0 <= j < |rest| && SetsActionType(rest[j]) {
            var j :| 0 <= j < |rest| && SetsActionType(rest[j]);
            assert SetsActionType(edits[j + 1]);
            if SetsActionType(e) {
              assert edits[0].transform.Some?;
            }
          } else {
            var i, j :| 0 <= i < j < |rest| && SetsActionType(rest[i]) && rest[i].transform.Some? && SetsActionType(rest[j]);
            assert SetsActionType(edits[i + 1]) && edits[i + 1].transform.Some? && SetsActionType(edits[j + 1]);
          }
        }
    }
  }

  /** A callback that never passes a config action leaves the config action
      of a draft without one unset. */
  lemma {:induction false} NoConfigActionStaysUnset(d: UntypedDraft, edits: seq<UntypedEdit>)
    requires d.configAction == None
    requires forall k :: 0 <= k < |edits| && edits[k].ArtifactTransformWithConfig? ==> edits[k].config == None
    ensures RunUntyped(d, edits).Success? ==> RunUntyped(d, edits).value.configAction == None
    decreases |edits|
  {
    if edits != [] {
      match ApplyUntypedEdit(d, edits[0])
      case Failure(_) =>
      case Success(next) =>
        assert forall k :: 0 <= k < |edits[1..]| ==> edits[1..][k] == edits[k + 1];
        NoConfigActionStaysUnset(next, edits[1..]);
    }
  }

  // ---------------------------------------------------------------------
  // Typed drafts

  /** The state of a TypedRegistration. */
  datatype TypedDraft = TypedDraft(
    spec: AttributeSpec,
    actionType: Option<ClassName>,
    parameters: PropertyValues)

  /** A new typed draft: its action type is the one the parameter type
      names through its TransformAction association, if it has one. */
  function NewTypedDraft(parameters: PropertyValues, association: Option<ClassName>): TypedDraft
  {
    TypedDraft(EmptySpec, association, parameters)
  }

  /** One step of a typed registration callback. */
  datatype TypedEdit =
    | TypedAttribute(edit: AttributeEdit)
      /** parameters(action): the action updates the parameter object */
    | ConfigureParameters(action: PropertyValues -> PropertyValues)

  function ApplyTypedEdit(d: TypedDraft, e: TypedEdit): TypedDraft
  {
    match e
    case TypedAttribute(a) => d.(spec := ApplyAttributeEdit(d.spec, a))
    case ConfigureParameters(action) => d.(parameters := action(d.parameters))
  }

  /** Runs a typed callback. A typed draft has no way to set its action
      type, so the callback leaves it as the constructor found it. */
  function RunTyped(d: TypedDraft, edits: seq<TypedEdit>): (r: TypedDraft)
    ensures r.actionType == d.actionType
    decreases |edits|
  {
    if edits == [] then d else RunTyped(ApplyTypedEdit(d, edits[0]), edits[1..])
  }

  /** The attribute writes of a typed callback, in the order it makes them. */
  function TypedWrites(edits: seq<TypedEdit>): (w: seq<AttributeEdit>)
    ensures forall a :: a in w <==> TypedAttribute(a) in edits
    decreases |edits|
  {
    if edits == [] then []
    else
      assert edits == [edits[0]] + edits[1..];
      (match edits[0]
       case TypedAttribute(a) => [a]
       case _ => []) + TypedWrites(edits[1..])
  }

  /** A typed callback leaves the containers as its attribute writes, applied
      in order, make them; its parameters(action) calls do not touch them. */
  lemma {:induction false} TypedCallbackWrites(d: TypedDraft, edits: seq<TypedEdit>)
    ensures RunTyped(d, edits).spec == ApplyAttributeEdits(d.spec, TypedWrites(edits))
    decreases |edits|
  {
    if edits != [] {
      var rest := edits[1..];
      var next := ApplyTypedEdit(d, edits[0]);
      TypedCallbackWrites(next, rest);
      assert RunTyped(d, edits) == RunTyped(next, rest);
      if edits[0].TypedAttribute? {
        assert TypedWrites(edits) == [edits[0].edit] + TypedWrites(rest);
        ApplyAttributeEditsCons(d.spec, edits[0].edit, TypedWrites(rest));
      } else {
        assert TypedWrites(edits) == TypedWrites(rest);
      }
    }
  }

  // ---------------------------------------------------------------------
  // The draft objects

  /** The `from` and `to` containers common to every draft. */
  class RecordingRegistration {
    var from: Attributes
    var to: Attributes

    function Spec(): AttributeSpec
      reads this
    {
      AttributeSpec(from, to)
    }

    constructor ()
      ensures Spec() == EmptySpec
    {
      from := map[];
      to := map[];
    }

    /** getFrom().attribute(name, value) or getTo().attribute(name, value). */
    method Attribute(edit: AttributeEdit)
      modifies this
      ensures Spec() == ApplyAttributeEdit(old(Spec()), edit)
    {
      match edit
      case SetFrom(n, v) => from := from[n := v];
      case SetTo(n, v) => to := to[n := v];
    }

    /** Runs a callback that only writes attributes. */
    method Execute(edits: seq<AttributeEdit>)
      modifies this
      ensures Spec() == ApplyAttributeEdits(old(Spec()), edits)
    {
      var i := 0;
      while i < |edits|
        invariant 0 <= i <= |edits|
        invariant ApplyAttributeEdits(Spec(), edits[i..]) == ApplyAttributeEdits(old(Spec()), edits)
      {
        Attribute(edits[i]);
        assert edits[i..][1..] == edits[i + 1..];
        i := i + 1;
      }
    }
  }

  /** The draft of the legacy entry point. */
  class UntypedRegistration {
    const recording: RecordingRegistration
    var actionType: Option<ClassName>
    var configAction: Option<ConfigAction>

    function Draft(): UntypedDraft
      reads this, recording
    {
      UntypedDraft(recording.Spec(), actionType, configAction)
    }

    constructor ()
      ensures fresh(recording)
      ensures Draft() == NewUntypedDraft
    {
      recording := new RecordingRegistration();
      actionType := None;
      configAction := None;
    }

    /** artifactTransform(type): the two-argument form with a null config. */
    method ArtifactTransform(transform: Option<ClassName>) returns (outcome: Outcome<ConfigError>)
      modifies this
      ensures old(actionType).Some? ==> outcome == Fail(DuplicateArtifactTransform) && Draft() == old(Draft())
      ensures old(actionType).None? ==>
                outcome == Pass && Draft() == old(Draft()).(actionType := transform, configAction := None)
    {
      outcome := ArtifactTransformWithConfig(transform, None);
    }

    /** artifactTransform(type, config). */
    method ArtifactTransformWithConfig(transform: Option<ClassName>, config: Option<ConfigAction>)
      returns (outcome: Outcome<ConfigError>)
      modifies this
      ensures old(actionType).Some? ==> outcome == Fail(DuplicateArtifactTransform) && Draft() == old(Draft())
      ensures old(actionType).None? ==>
                outcome == Pass && Draft() == old(Draft()).(actionType := transform, configAction := config)
    {
      if actionType.Some? {
        return Fail(DuplicateArtifactTransform);
      }
      actionType := transform;
      configAction := config;
      outcome := Pass;
    }

    /** getTransformParameters. */
    method GetTransformParameters() returns (params: seq<Value>)
      ensures params == TransformParameters(Draft())
      ensures configAction == None ==> params == []
    {
      if configAction == None {
        return NoParameters;
      }
      params := configAction.value.params;
    }

    /** Runs the registration callback on this draft, stopping at the first
      exception. */
    method Execute(edits: seq<UntypedEdit>) returns (outcome: Outcome<ConfigError>)
      modifies this, recording
      ensures RunUntyped(old(Draft()), edits).Success? ==>
                outcome == Pass && Draft() == RunUntyped(old(Draft()), edits).value
      ensures RunUntyped(old(Draft()), edits).Failure? ==>
                outcome == Fail(RunUntyped(old(Draft()), edits).error)
    {
      var i := 0;
      while i < |edits|
        invariant 0 <= i <= |edits|
        invariant RunUntyped(Draft(), edits[i..]) == RunUntyped(old(Draft()), edits)
      {
        assert edits[i..][1..] == edits[i + 1..];
        match edits[i] {
          case UntypedAttribute(a) =>
            recording.Attribute(a);
          case ArtifactTransform(t) =>
            var o := ArtifactTransform(t);
            if o.Fail? {
              return o;
            }
          case ArtifactTransformWithConfig(t, c) =>
            var o := ArtifactTransformWithConfig(t, c);
            if o.Fail? {
              return o;
            }
        }
        i := i + 1;
      }
      outcome := Pass;
    }
  }

  /** The draft of the typed-parameter entry point. */
  class TypedRegistration {
    const recording: RecordingRegistration
    /** The state of the parameter object the draft was built around. */
    var parameterObject: PropertyValues
    /** Set by the constructor only. */
    const actionType: Option<ClassName>

    function Draft(): TypedDraft
      reads this, recording
    {
      TypedDraft(recording.Spec(), actionType, parameterObject)
    }

    /** `association` is the parameter type's TransformAction annotation. */
    constructor (parameterObject: PropertyValues, association: Option<ClassName>)
      ensures fresh(recording)
      ensures Draft() == NewTypedDraft(parameterObject, association)
    {
      recording := new RecordingRegistration();
      this.parameterObject := parameterObject;
      actionType := association;
    }

    /** getParameters: the parameter object as the callback left it, the
        parameters a typed registration is finalized with. */
    function GetParameters(): (r: PropertyValues)
      reads this, recording
      ensures r == Draft().parameters
    {
      parameterObject
    }

    /** parameters(action): runs the action on the parameter object. */
    method Parameters(action: PropertyValues -> PropertyValues)
      modifies this
      ensures Draft() == old(Draft()).(parameters := action(old(parameterObject)))
    {
      parameterObject := action(parameterObject);
    }

    /** Runs the registration callback on this draft. */
    method Execute(edits: seq<TypedEdit>)
      modifies this, recording
      ensures Draft() == RunTyped(old(Draft()), edits)
    {
      var i := 0;
      while i < |edits|
        invariant 0 <= i <= |edits|
        invariant RunTyped(Draft(), edits[i..]) == RunTyped(old(Draft()), edits)
      {
        assert edits[i..][1..] == edits[i + 1..];
        match edits[i] {
          case TypedAttribute(a) => recording.Attribute(a);
          case ConfigureParameters(action) => Parameters(action);
        }
        i := i + 1;
      }
    }
  }
}
