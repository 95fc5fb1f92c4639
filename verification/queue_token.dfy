/** The queue token record (`QueueToken`) with its status and priority enums,
    and the dispatch ordering built from the priority rank. */
module QueueToken {
  import opened Wrappers

  /** Opaque identifiers: token ids, patient, doctor and department ids. */
  type Id = string

  /** A calendar date, as a day number. */
  type Date = nat

  /** A point in time, in minutes. */
  type Time = nat

  datatype TokenStatus = Waiting | Called | InProgress | Completed | Canceled | NoShow

  /** Every status, each exactly once. */
  const AllStatuses: seq<TokenStatus> := [Waiting, Called, InProgress, Completed, Canceled, NoShow]

  /** The enumeration lists six distinct statuses and no others. */
  lemma StatusesEnumerated()
    ensures |AllStatuses| == 6
    ensures forall st: TokenStatus :: st in AllStatuses
    ensures forall i, j :: 0 <= i < j < |AllStatuses| ==> AllStatuses[i] != AllStatuses[j]
  {
    forall st: TokenStatus
      ensures st in AllStatuses
    {
      match st
      case Waiting => assert AllStatuses[0] == st;
      case Called => assert AllStatuses[1] == st;
      case InProgress => assert AllStatuses[2] == st;
      case Completed => assert AllStatuses[3] == st;
      case Canceled => assert AllStatuses[4] == st;
      case NoShow => assert AllStatuses[5] == st;
    }
  }

  datatype TokenPriority = Emergency | High | Normal | Low

  /** `TokenPriority.getValue()`: the dispatch rank, 1 being served first. */
  function Rank(p: TokenPriority): (r: int)
    ensures 1 <= r <= 4
  {
    match p
    case Emergency => 1
    case High => 2
    case Normal => 3
    case Low => 4
  }

  /** Ranks grow from EMERGENCY to LOW, so distinct priorities never share a
      rank. */
  lemma RankOrdersPriorities()
    ensures Rank(Emergency) < Rank(High) < Rank(Normal) < Rank(Low)
    ensures forall p, q :: Rank(p) == Rank(q) ==> p == q
  {
  }

  /** `TokenPriority.name()`. */
  function PriorityName(p: TokenPriority): string
  {
    match p
    case Emergency => "EMERGENCY"
    case High => "HIGH"
    case Normal => "NORMAL"
    case Low => "LOW"
  }

  /** One issued queue ticket. `tokenNumber` is declared as a string in the
      record but used as a number everywhere; it is a number here. */
  datatype Token = Token(
    id: Id,
    patientId: Id,
    doctorId: Id,
    departmentId: Id,
    tokenNumber: nat,
    date: Date,
    issueTime: Time,
    estimatedTime: Time,
    actualCallTime: Option<Time>,
    status: TokenStatus,
    position: nat,
    estimatedWaitMinutes: nat,
    appointmentId: Option<Id>,
    priority: TokenPriority)

  /** The dispatch comparator of `callNextToken` as a strict order: `a` is
      called before `b` when its rank is smaller, or the ranks tie and its
      token number is smaller. */
  predicate DispatchesBefore(a: Token, b: Token)
  {
    Rank(a.priority) < Rank(b.priority)
    || (Rank(a.priority) == Rank(b.priority) && a.tokenNumber < b.tokenNumber)
  }

  /** The comparator is a strict total order on (priority, token number):
      irreflexive, transitive, and any two tokens that differ in either key are
      ordered one way or the other. */
  lemma DispatchOrderIsStrictTotal(a: Token, b: Token, c: Token)
    ensures !DispatchesBefore(a, a)
    ensures DispatchesBefore(a, b) && DispatchesBefore(b, c) ==> DispatchesBefore(a, c)
    ensures DispatchesBefore(a, b) ==> !DispatchesBefore(b, a)
    ensures (a.priority, a.tokenNumber) != (b.priority, b.tokenNumber)
            ==> DispatchesBefore(a, b) || DispatchesBefore(b, a)
  {
    RankOrdersPriorities();
  }
}
