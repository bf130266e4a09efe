/** Short labels and prose descriptions of the document types, used in error
    messages. */
module FileTypes {
  /** The five document types the classifier produces. */
  predicate IsKnownType(t: string) {
    t == "spec" || t == "test" || t == "implementation" || t == "ref-impl" || t == "project"
  }

  function Label(t: string): string {
    match t
    case "spec" => "Spec"
    case "test" => "Test"
    case "implementation" => "Impl"
    case "ref-impl" => "Ref Impl"
    case "project" => "Proj"
    case _ => "File"
  }

  function Description(t: string): string {
    match t
    case "spec" => "specification"
    case "test" => "test"
    case "implementation" => "implementation"
    case "ref-impl" => "reference implementation"
    case "project" => "project"
    case _ => "unknown"
  }

  /** Every known type has its own label, and only unknown types are labelled
      `File`. */
  lemma LabelTable(a: string, b: string)
    ensures Label(a) == "File" <==> !IsKnownType(a)
    ensures IsKnownType(a) && Label(a) == Label(b) ==> a == b
  {
  }

  /** Only unknown types are described as `unknown`; `test`, `implementation`
      and `project` describe as themselves, and the descriptions of known types
      are distinct. */
  lemma DescriptionTable(a: string, b: string)
    ensures Description(a) == "unknown" <==> !IsKnownType(a)
    ensures a == "test" || a == "implementation" || a == "project" ==> Description(a) == a
    ensures IsKnownType(a) && Description(a) == Description(b) ==> a == b
  {
  }
}
