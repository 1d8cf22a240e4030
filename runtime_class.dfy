/**
 * Runtime classes, standing in for `getClass()`: every class but
 * `java.lang.Object` has a superclass. Context lookups compare classes
 * exactly, and an activity refuses a sub-activity of its own class.
 */
module RuntimeClasses {

  datatype ClassTag = ObjectClass | Class(name: string, superclass: ClassTag)
  {
    /** The class name as Java's `getSimpleName` reports it. */
    function SimpleName(): string
    {
      match this
      case ObjectClass => "Object"
      case Class(name, _) => name
    }

    /** Number of superclass links up to `java.lang.Object`. */
    function Depth(): nat
    {
      match this
      case ObjectClass => 0
      case Class(_, parent) => 1 + parent.Depth()
    }

    /** `this` is a proper subclass of `ancestor`. */
    predicate IsStrictSubclassOf(ancestor: ClassTag)
    {
      match this
      case ObjectClass => false
      case Class(_, parent) => parent == ancestor || parent.IsStrictSubclassOf(ancestor)
    }
  }

  /** A proper subclass lies strictly deeper in the hierarchy than its ancestor. */
  lemma {:induction false} SubclassIsDeeper(c: ClassTag, ancestor: ClassTag)
    requires c.IsStrictSubclassOf(ancestor)
    ensures ancestor.Depth() < c.Depth()
  {
    match c
    case Class(_, parent) =>
      if parent != ancestor {
        SubclassIsDeeper(parent, ancestor);
      }
  }

  /** No class is a proper subclass of itself, so a subclass never equals its ancestor. */
  lemma SubclassIsDifferent(c: ClassTag, ancestor: ClassTag)
    requires c.IsStrictSubclassOf(ancestor)
    ensures c != ancestor
  {
    SubclassIsDeeper(c, ancestor);
  }
}
