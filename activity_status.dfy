/**
 * The outcome of running an activity, with the fixed integer rank that
 * `getValue` reports. Ranks order the statuses by severity; the roll-up of
 * sub-activity statuses picks the one of greatest rank.
 */
module ActivityStatuses {

  datatype ActivityStatus =
    | NotRun
    | InProcess
    | Skipped
    | FileNotFound
    | DirectoryNotFound
    | Success
    | ValidationError
    | UnexpectedSystemError
  {
    /** The rank given to the enum constant (Java `getValue`). */
    function Rank(): (v: int)
      ensures 0 <= v <= 50
      ensures v == 0 <==> this == NotRun
      ensures v == 50 <==> this == UnexpectedSystemError
    {
      match this
      case NotRun => 0
      case InProcess => 10
      case Skipped => 11
      case FileNotFound => 12
      case DirectoryNotFound => 13
      case Success => 20
      case ValidationError => 40
      case UnexpectedSystemError => 50
    }

    /** Position in declaration order (Java `ordinal`). */
    function Ordinal(): nat
    {
      match this
      case NotRun => 0
      case InProcess => 1
      case Skipped => 2
      case FileNotFound => 3
      case DirectoryNotFound => 4
      case Success => 5
      case ValidationError => 6
      case UnexpectedSystemError => 7
    }
  }

  /** The constants in declaration order (Java `values()`). */
  const Declared: seq<ActivityStatus> :=
    [NotRun, InProcess, Skipped, FileNotFound, DirectoryNotFound, Success, ValidationError, UnexpectedSystemError]

  /** The rank each constant is declared with, in declaration order. */
  lemma DeclaredRanks()
    ensures |Declared| == 8
    ensures forall s: ActivityStatus :: s in Declared && Declared[s.Ordinal()] == s
    ensures forall i :: 0 <= i < |Declared| ==> Declared[i].Rank() == [0, 10, 11, 12, 13, 20, 40, 50][i]
  {
    forall s: ActivityStatus ensures s in Declared && Declared[s.Ordinal()] == s {
      match s
      case NotRun => assert Declared[0] == s;
      case InProcess => assert Declared[1] == s;
      case Skipped => assert Declared[2] == s;
      case FileNotFound => assert Declared[3] == s;
      case DirectoryNotFound => assert Declared[4] == s;
      case Success => assert Declared[5] == s;
      case ValidationError => assert Declared[6] == s;
      case UnexpectedSystemError => assert Declared[7] == s;
    }
  }

  /** Ranks strictly increase in declaration order. */
  lemma RankFollowsDeclarationOrder(a: ActivityStatus, b: ActivityStatus)
    ensures a.Ordinal() < b.Ordinal() <==> a.Rank() < b.Rank()
    ensures a.Rank() == b.Rank() <==> a == b
  {
  }

  /** The status of greater rank; the second operand wins only when strictly greater. */
  function MoreSevere(current: ActivityStatus, candidate: ActivityStatus): (r: ActivityStatus)
    ensures r == current || r == candidate
    ensures r.Rank() >= current.Rank() && r.Rank() >= candidate.Rank()
  {
    if candidate.Rank() > current.Rank() then candidate else current
  }

  /** Since distinct statuses have distinct ranks, picking the more severe one is symmetric. */
  lemma MoreSevereCommutes(a: ActivityStatus, b: ActivityStatus)
    ensures MoreSevere(a, b) == MoreSevere(b, a)
  {
    RankFollowsDeclarationOrder(a, b);
  }

  /** NOT_RUN is the least severe status and UNEXPECTED_SYSTEM_ERROR the most severe. */
  lemma Extremes(s: ActivityStatus)
    ensures NotRun.Rank() <= s.Rank() <= UnexpectedSystemError.Rank()
    ensures Success.Rank() < ValidationError.Rank() < UnexpectedSystemError.Rank()
  {
  }
}
