/**
 * Categories of result messages with the fixed integer rank that `getValue`
 * reports; reporting filters messages by exact category or by a minimum rank.
 */
module MessageCategories {

  datatype Category = Default | Info | Warning | Error
  {
    /** The rank given to the enum constant (Java `getValue`). */
    function Rank(): (v: int)
      ensures 0 <= v <= 30
      ensures v == 0 <==> this == Default
      ensures v == 30 <==> this == Error
    {
      match this
      case Default => 0
      case Info => 10
      case Warning => 20
      case Error => 30
    }

    /** Position in declaration order (Java `ordinal`). */
    function Ordinal(): nat
    {
      match this
      case Default => 0
      case Info => 1
      case Warning => 2
      case Error => 3
    }

    /** The "at least" test used by `getMessagesMinCategory`. */
    predicate AtLeast(min: Category)
    {
      Rank() >= min.Rank()
    }
  }

  /** The constants in declaration order (Java `values()`). */
  const Declared: seq<Category> := [Default, Info, Warning, Error]

  /** The rank each constant is declared with, in declaration order. */
  lemma DeclaredRanks()
    ensures |Declared| == 4
    ensures forall c: Category :: c in Declared && Declared[c.Ordinal()] == c
    ensures forall i :: 0 <= i < |Declared| ==> Declared[i].Rank() == [0, 10, 20, 30][i]
  {
    forall c: Category ensures c in Declared && Declared[c.Ordinal()] == c {
      match c
      case Default => assert Declared[0] == c;
      case Info => assert Declared[1] == c;
      case Warning => assert Declared[2] == c;
      case Error => assert Declared[3] == c;
    }
  }

  /** Ranks strictly increase in declaration order, so distinct categories have distinct ranks. */
  lemma RankFollowsDeclarationOrder(a: Category, b: Category)
    ensures a.Ordinal() < b.Ordinal() <==> a.Rank() < b.Rank()
    ensures a.Rank() == b.Rank() <==> a == b
  {
  }

  /** Every category is at least DEFAULT; only ERROR is at least ERROR. */
  lemma AtLeastBounds(c: Category)
    ensures c.AtLeast(Default)
    ensures c.AtLeast(Error) <==> c == Error
    ensures c.AtLeast(c)
  {
  }
}
