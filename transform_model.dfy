/** The values the transform registry works with: attribute containers,
    configuration errors, and the finalized registrations it stores. */
module TransformModel {
  import opened Wrappers

  /** A Java class reference (an action type or a parameter type), named. */
  type ClassName = string
  type AttributeName = string
  type AttributeValue = string
  /** A transform parameter value; the registry never looks inside one. */
  type Value = string

  /** An attribute container, as a finite map from attribute to value. */
  type Attributes = map<AttributeName, AttributeValue>

  /** The property values of a typed parameter object. */
  type PropertyValues = map<string, Value>

  /** The two containers every draft records: its `from` and `to` attributes. */
  datatype AttributeSpec = AttributeSpec(from: Attributes, to: Attributes)

  /** A fresh draft's containers: both empty. */
  const EmptySpec := AttributeSpec(map[], map[])

  /** One write made by a registration callback through `getFrom()` or
      `getTo()`: `attribute(name, value)` on that container. */
  datatype AttributeEdit =
    | SetFrom(name: AttributeName, value: AttributeValue)
    | SetTo(name: AttributeName, value: AttributeValue)

  function ApplyAttributeEdit(spec: AttributeSpec, edit: AttributeEdit): AttributeSpec
  {
    match edit
    case SetFrom(n, v) => spec.(from := spec.from[n := v])
    case SetTo(n, v) => spec.(to := spec.to[n := v])
  }

  /** The two containers of a draft. */
  datatype Container = FromContainer | ToContainer

  /** The write goes to container `c`. */
  predicate WritesInto(e: AttributeEdit, c: Container)
  {
    match c
    case FromContainer => e.SetFrom?
    case ToContainer => e.SetTo?
  }

  /** The attribute names a sequence of writes puts into container `c`. */
  function Names(edits: seq<AttributeEdit>, c: Container): set<AttributeName>
  {
    set e | e in edits && WritesInto(e, c) :: e.name
  }

  /** The value of the last write of `n` into container `c`. */
  function LastWrite(edits: seq<AttributeEdit>, c: Container, n: AttributeName): AttributeValue
    requires n in Names(edits, c)
    decreases |edits|
  {
    var last := edits[|edits| - 1];
    if WritesInto(last, c) && last.name == n then last.value
    else
      assert edits == edits[..|edits| - 1] + [last];
      LastWrite(edits[..|edits| - 1], c, n)
  }

  lemma NamesOfConcat(a: seq<AttributeEdit>, b: seq<AttributeEdit>, c: Container)
    ensures Names(a + b, c) == Names(a, c) + Names(b, c)
  {
    forall n | n in Names(a + b, c) ensures n in Names(a, c) + Names(b, c) {
      var e :| e in a + b && WritesInto(e, c) && e.name == n;
      assert e in a || e in b;
    }
  }

  lemma NamesOfOne(e: AttributeEdit, c: Container)
    ensures Names([e], c) == if WritesInto(e, c) then {e.name} else {}
  {
  }

  /** Appending one write: it is the last write of its own name, and leaves
      the last write of every other name where it was. */
  lemma LastWriteOfSnoc(init: seq<AttributeEdit>, last: AttributeEdit, c: Container, n: AttributeName)
    requires n in Names(init + [last], c)
    ensures Names(init + [last], c) == Names(init, c) + if WritesInto(last, c) then {last.name} else {}
    ensures LastWrite(init + [last], c, n) ==
              if WritesInto(last, c) && last.name == n then last.value else LastWrite(init, c, n)
  {
    NamesOfConcat(init, [last], c);
    NamesOfOne(last, c);
    assert (init + [last])[..|init|] == init;
  }

  /** The last write of `n` in `a + b` is its last write in `b`, or in `a`
      when `b` never writes `n`. */
  lemma {:induction false} LastWriteOfConcat(a: seq<AttributeEdit>, b: seq<AttributeEdit>, c: Container, n: AttributeName)
    requires n in Names(a + b, c)
    ensures n in Names(a, c) + Names(b, c)
    ensures LastWrite(a + b, c, n) ==
              if n in Names(b, c) then LastWrite(b, c, n) else LastWrite(a, c, n)
    decreases |b|
  {
    NamesOfConcat(a, b, c);
    if b == [] {
      assert a + b == a;
    } else {
      var init, last := b[..|b| - 1], b[|b| - 1];
      assert b == init + [last];
      assert a + b == (a + init) + [last];
      LastWriteOfSnoc(a + init, last, c, n);
      if n in Names(b, c) {
        LastWriteOfSnoc(init, last, c, n);
      }
      if !(WritesInto(last, c) && last.name == n) {
        NamesOfConcat(a, init, c);
        LastWriteOfConcat(a, init, c, n);
      }
    }
  }

  /** Looking past the first write: the last write of `n` is the last one in
      the rest, or the first write itself when the rest never writes `n`. */
  lemma LastWriteAfterFirst(edits: seq<AttributeEdit>, c: Container, n: AttributeName)
    requires |edits| > 0 && n in Names(edits, c)
    ensures n !in Names(edits[1..], c) ==> WritesInto(edits[0], c) && edits[0].name == n
    ensures LastWrite(edits, c, n) ==
              if n in Names(edits[1..], c) then LastWrite(edits[1..], c, n) else edits[0].value
  {
    assert edits == [edits[0]] + edits[1..];
    NamesOfOne(edits[0], c);
    LastWriteOfConcat([edits[0]], edits[1..], c, n);
  }

  /** The attribute names a sequence of writes puts into the `from` container. */
  function FromNames(edits: seq<AttributeEdit>): set<AttributeName>
  {
    Names(edits, FromContainer)
  }

  /** The attribute names a sequence of writes puts into the `to` container. */
  function ToNames(edits: seq<AttributeEdit>): set<AttributeName>
  {
    Names(edits, ToContainer)
  }

  /** The value of the last write of `n` into the `from` container. */
  function LastFrom(edits: seq<AttributeEdit>, n: AttributeName): AttributeValue
    requires n in FromNames(edits)
  {
    LastWrite(edits, FromContainer, n)
  }

  /** The value of the last write of `n` into the `to` container. */
  function LastTo(edits: seq<AttributeEdit>, n: AttributeName): AttributeValue
    requires n in ToNames(edits)
  {
    LastWrite(edits, ToContainer, n)
  }

  /** The container `c` of a spec. */
  function Slot(spec: AttributeSpec, c: Container): Attributes
  {
    match c
    case FromContainer => spec.from
    case ToContainer => spec.to
  }

  /** Container `c` of `r` is container `c` of `spec` after `edits`: it holds
      exactly the attributes it held before plus those written to it; a
      written attribute has the value of its last write, any other keeps its
      earlier value. */
  predicate Applied(spec: AttributeSpec, edits: seq<AttributeEdit>, r: AttributeSpec, c: Container)
  {
    && Slot(r, c).Keys == Slot(spec, c).Keys + Names(edits, c)
    && (forall n :: n in Names(edits, c) ==> Slot(r, c)[n] == LastWrite(edits, c, n))
    && (forall n :: n in Slot(spec, c) && n !in Names(edits, c) ==> Slot(r, c)[n] == Slot(spec, c)[n])
  }

  /** The names written by a sequence are those of its first write and of
      the rest. */
  lemma NamesAfterFirst(edits: seq<AttributeEdit>, c: Container)
    requires |edits| > 0
    ensures Names(edits, c) == Names(edits[1..], c) + if WritesInto(edits[0], c) then {edits[0].name} else {}
  {
    assert edits == [edits[0]] + edits[1..];
    NamesOfConcat([edits[0]], edits[1..], c);
    NamesOfOne(edits[0], c);
  }

  /** A single write changes only the container it writes into. */
  lemma SlotAfterEdit(spec: AttributeSpec, e: AttributeEdit, c: Container)
    ensures Slot(ApplyAttributeEdit(spec, e), c) ==
              if WritesInto(e, c) then Slot(spec, c)[e.name := e.value] else Slot(spec, c)
  {
  }

  /** One step of `ApplyAttributeEdits`: applying the first write and then the
      rest applies the whole sequence, container by container. */
  lemma AppliedAfterFirst(spec: AttributeSpec, edits: seq<AttributeEdit>, r: AttributeSpec, c: Container)
    requires |edits| > 0
    requires Applied(ApplyAttributeEdit(spec, edits[0]), edits[1..], r, c)
    ensures Applied(spec, edits, r, c)
  {
    NamesAfterFirst(edits, c);
    SlotAfterEdit(spec, edits[0], c);
    forall n | n in Names(edits, c) ensures Slot(r, c)[n] == LastWrite(edits, c, n) {
      LastWriteAfterFirst(edits, c, n);
    }
  }

  /** The containers after a callback's writes, applied in order; the writes
      into each container are applied independently (`Applied`). */
  function ApplyAttributeEdits(spec: AttributeSpec, edits: seq<AttributeEdit>): (r: AttributeSpec)
    ensures Applied(spec, edits, r, FromContainer)
    ensures Applied(spec, edits, r, ToContainer)
    decreases |edits|
  {
    if edits == [] then spec
    else
      var r := ApplyAttributeEdits(ApplyAttributeEdit(spec, edits[0]), edits[1..]);
      AppliedAfterFirst(spec, edits, r, FromContainer);
      AppliedAfterFirst(spec, edits, r, ToContainer);
      r
  }

  /** Applying a write and then a run of writes applies them all, in order. */
  lemma ApplyAttributeEditsCons(spec: AttributeSpec, e: AttributeEdit, rest: seq<AttributeEdit>)
    ensures ApplyAttributeEdits(spec, [e] + rest) == ApplyAttributeEdits(ApplyAttributeEdit(spec, e), rest)
  {
    assert ([e] + rest)[0] == e;
    assert ([e] + rest)[1..] == rest;
  }

  /** Starting from empty containers, each container holds exactly the names
      written into it, each with the value of its last write. */
  lemma EditsOnEmptySpec(edits: seq<AttributeEdit>)
    ensures var r := ApplyAttributeEdits(EmptySpec, edits);
      && r.from.Keys == FromNames(edits)
      && r.to.Keys == ToNames(edits)
      && (forall n :: n in FromNames(edits) ==> r.from[n] == LastFrom(edits, n))
      && (forall n :: n in ToNames(edits) ==> r.to[n] == LastTo(edits, n))
  {
    var r := ApplyAttributeEdits(EmptySpec, edits);
    assert Slot(r, FromContainer) == r.from && Slot(EmptySpec, FromContainer) == map[];
    assert Slot(r, ToContainer) == r.to && Slot(EmptySpec, ToContainer) == map[];
  }

  /** The configuration errors (VariantTransformConfigurationException) the
      registry raises, one per distinct cause. */
  datatype ConfigError =
    | MissingActionType
    | MissingToAttribute
    | MissingFromAttribute
    | ToAttributeNotInFrom
    | DuplicateArtifactTransform

  const MessagePrefix: string := "Could not register transform: "

  /** The part of each error's message after the common prefix. */
  function Detail(e: ConfigError): string
  {
    match e
    case MissingActionType => "an artifact transform action must be provided."
    case MissingToAttribute => "at least one 'to' attribute must be provided."
    case MissingFromAttribute => "at least one 'from' attribute must be provided."
    case ToAttributeNotInFrom => "each 'to' attribute must be included as a 'from' attribute."
    case DuplicateArtifactTransform => "only one ArtifactTransform may be provided for registration."
  }

  /** The exception message carried by each error. */
  function Message(e: ConfigError): (m: string)
    ensures MessagePrefix <= m
  {
    MessagePrefix + Detail(e)
  }

  /** The parameters handed to the finalizing factory: the legacy parameter
      array of an untyped registration, or the parameter object of a typed
      one (null for an action-type registration). */
  datatype Parameters =
    | LegacyParameters(values: seq<Value>)
    | ParameterObject(instance: Option<PropertyValues>)

  /** A finalized registration. The factory that builds it (parameter
      isolation, snapshotting, class-loader hashing) is not part of this
      model: a registration records the inputs it was created from. */
  datatype Registration = Registration(
    from: Attributes,
    to: Attributes,
    actionType: ClassName,
    parameters: Parameters)
}
