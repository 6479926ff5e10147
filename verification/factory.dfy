/** `KnativeAnnotationProcessorFactory`: which processor handles an annotation, by the
    annotation's name. */
module Factory {
  import opened Wrappers
  import opened Models

  /** The `KnativeAnnotation` enum; each constant names its processor. */
  datatype Annotation = ServiceAnnotation | SecretAnnotation | ConfigMapAnnotation

  const AnnotationEnum: string := "org.ballerinax.knative.processors.KnativeAnnotationProcessorFactory.KnativeAnnotation"

  function AnnotationName(a: Annotation): string {
    match a
    case ServiceAnnotation => "Service"
    case SecretAnnotation => "Secret"
    case ConfigMapAnnotation => "ConfigMap"
  }

  /** `KnativeAnnotation.valueOf`: a name that is no constant's name throws. */
  function AnnotationOf(name: string): (r: Result<Annotation>)
    ensures r.Ok? ==> AnnotationName(r.value) == name
    ensures r.Err? <==> forall a: Annotation :: AnnotationName(a) != name
    ensures r.Err? ==> r == NoEnumConstant(AnnotationEnum, name)
  {
    if name == "Service" then Ok(ServiceAnnotation)
    else if name == "Secret" then Ok(SecretAnnotation)
    else if name == "ConfigMap" then Ok(ConfigMapAnnotation)
    else
      NoOtherName(name);
      NoEnumConstant(AnnotationEnum, name)
  }

  /** The three names are the only constant names. */
  lemma NoOtherName(name: string)
    requires name != "Service" && name != "Secret" && name != "ConfigMap"
    ensures forall a: Annotation :: AnnotationName(a) != name
  {
    forall a: Annotation ensures AnnotationName(a) != name {
      match a
      case ServiceAnnotation =>
      case SecretAnnotation =>
      case ConfigMapAnnotation =>
    }
  }

  /** Every constant is found by its name, so each has a processor and the
      factory's fall-through case, which would reset `canProcess`, cannot be reached. */
  lemma {:induction false} EveryAnnotationDispatched(a: Annotation)
    ensures AnnotationOf(AnnotationName(a)) == Ok(a)
  {
    match a
    case ServiceAnnotation =>
    case SecretAnnotation =>
    case ConfigMapAnnotation =>
  }

  /** `getAnnotationProcessorInstance`: `canProcess` is set before the name is looked
      at, so it stays set when the name is refused. */
  function GetProcessor(h: Holder, name: string): (r: Step<Annotation>)
    ensures r.holder == h.(canProcess := true)
    ensures r.result.Ok? ==> AnnotationName(r.result.value) == name
    ensures r.result.Err? <==> name != "Service" && name != "Secret" && name != "ConfigMap"
    ensures r.result.Err? ==> r.result.error.kind == IllegalArgument && !r.result.error.Caught()
  {
    Step(h.(canProcess := true), AnnotationOf(name))
  }
}
