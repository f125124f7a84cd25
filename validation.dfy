/** The admission checks run on a completed draft, `validateActionType`
    and `validateAttributes`. Each returns the error `DefaultVariantTransformRegistry` throws. */
module Validation {
  import opened Wrappers
  import opened TransformModel

  /** What admission demands of a draft's containers: both non-empty, and
      no `to` attribute that is not also a `from` attribute. */
  predicate WellFormed(spec: AttributeSpec)
  {
    spec.to != map[] && spec.from != map[] && spec.to.Keys <= spec.from.Keys
  }

  /** An action type must be given. */
  function ValidateActionType(actionType: Option<ClassName>): (r: Outcome<ConfigError>)
    ensures r.Pass? <==> actionType.Some?
    ensures r.Fail? ==> r.error == MissingActionType
  {
    if actionType == None then Fail(MissingActionType) else Pass
  }

  /** The attribute checks, in the order `validateAttributes` checks them: `to` first, then `from`,
      then the inclusion of the `to` names among the `from` names. */
  function ValidateAttributes(spec: AttributeSpec): (r: Outcome<ConfigError>)
    ensures r.Pass? <==> WellFormed(spec)
    ensures r == Fail(MissingToAttribute) <==> spec.to == map[]
    ensures r == Fail(MissingFromAttribute) <==> spec.to != map[] && spec.from == map[]
    ensures r == Fail(ToAttributeNotInFrom) <==>
              spec.to != map[] && spec.from != map[] && exists n :: n in spec.to && n !in spec.from
  {
    if |spec.to| == 0 then Fail(MissingToAttribute)
    else if |spec.from| == 0 then Fail(MissingFromAttribute)
    else if !(spec.to.Keys <= spec.from.Keys) then Fail(ToAttributeNotInFrom)
    else Pass
  }

  /** Both checks as every entry point runs them: the action type before
      any attribute, so a draft lacking both reports the action type. */
  function Validate(actionType: Option<ClassName>, spec: AttributeSpec): (r: Outcome<ConfigError>)
    ensures actionType == None ==> r == Fail(MissingActionType)
    ensures actionType != None ==> r == ValidateAttributes(spec)
    ensures r.Pass? <==> actionType.Some? && WellFormed(spec)
  {
    match ValidateActionType(actionType)
    case Fail(e) => Fail(e)
    case Pass => ValidateAttributes(spec)
  }
}
