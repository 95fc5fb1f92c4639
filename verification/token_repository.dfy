/** The token store (`QueueTokenRepository`, a Redis hash keyed by token id)
    and its derived queries, as pure functions over a sequence of records in
    iteration order. */
module TokenRepository {
  import opened Wrappers
  import opened Seqs
  import opened QueueToken

  /** No two records share an id: the store is keyed by id. */
  predicate IdsDistinct(s: seq<Token>)
  {
    forall i, j :: 0 <= i < j < |s| ==> s[i].id != s[j].id
  }

  type Store = s: seq<Token> | IdsDistinct(s) witness []

  /** Test functions for the derived queries, named so that every query over
      the same keys filters with the same test. */
  function InPartition(doctorId: Id, date: Date): Token -> bool
  {
    (t: Token) => t.doctorId == doctorId && t.date == date
  }

  function InPartitionWithStatus(doctorId: Id, date: Date, status: TokenStatus): Token -> bool
  {
    (t: Token) => t.doctorId == doctorId && t.date == date && t.status == status
  }

  function OfPatientAt(patientId: Id, doctorId: Id, date: Date): Token -> bool
  {
    (t: Token) => t.patientId == patientId && t.doctorId == doctorId && t.date == date
  }

  function TokenNumberKey(): Token -> int
  {
    (t: Token) => t.tokenNumber
  }

  /** The index of the record with the given id, if any. */
  function IndexOfId(s: seq<Token>, id: Id): (r: Option<nat>)
    ensures r.Some? ==> r.value < |s| && s[r.value].id == id
    ensures r.None? <==> forall i :: 0 <= i < |s| ==> s[i].id != id
    ensures IdsDistinct(s) ==> forall i :: 0 <= i < |s| && s[i].id == id ==> r == Some(i)
  {
    if |s| == 0 then None
    else if s[|s| - 1].id == id then Some(|s| - 1)
    else IndexOfId(s[..|s| - 1], id)
  }

  /** `findById`. */
  function FindById(s: Store, id: Id): (r: Option<Token>)
    ensures r.None? <==> forall i :: 0 <= i < |s| ==> s[i].id != id
    ensures r.Some? ==> r.value in s && r.value.id == id
    ensures forall i :: 0 <= i < |s| && s[i].id == id ==> r == Some(s[i])
  {
    match IndexOfId(s, id)
    case None => None
    case Some(i) => Some(s[i])
  }

  /** Replacing a record by one with the same id keeps ids distinct and
      changes only what that id finds. */
  lemma ReplaceById(s: Store, i: nat, t: Token)
    requires i < |s| && s[i].id == t.id
    ensures IdsDistinct(s[i := t])
    ensures FindById(s[i := t], t.id) == Some(t)
    ensures forall id :: id != t.id ==> FindById(s[i := t], id) == FindById(s, id)
  {
    var r := s[i := t];
    assert forall j :: 0 <= j < |s| ==> r[j].id == s[j].id;
    forall id | id != t.id
      ensures FindById(r, id) == FindById(s, id)
    {
      assert forall j :: 0 <= j < |s| && s[j].id == id ==> r[j] == s[j];
    }
  }

  /** Appending a record under a fresh id keeps ids distinct and changes
      only what that id finds. */
  lemma AppendById(s: Store, t: Token)
    requires forall j :: 0 <= j < |s| ==> s[j].id != t.id
    ensures IdsDistinct(s + [t])
    ensures FindById(s + [t], t.id) == Some(t)
    ensures forall id :: id != t.id ==> FindById(s + [t], id) == FindById(s, id)
  {
    var r := s + [t];
    assert forall j :: 0 <= j < |s| ==> r[j] == s[j];
    assert r[|s|] == t;
  }

  /** `save`: an upsert by id. A record with the same id is replaced where it
      stands; otherwise the record is added at the end. */
  function Save(s: Store, t: Token): (r: Store)
    ensures FindById(r, t.id) == Some(t)
    ensures |r| >= |s|
    ensures forall id :: id != t.id ==> FindById(r, id) == FindById(s, id)
    ensures forall i :: 0 <= i < |s| ==> r[i] == if s[i].id == t.id then t else s[i]
    ensures FindById(s, t.id).Some? ==> |r| == |s|
    ensures FindById(s, t.id).None? ==> r == s + [t]
  {
    match IndexOfId(s, t.id)
    case Some(i) =>
      ReplaceById(s, i, t);
      assert forall j :: 0 <= j < |s| && j != i ==> s[j].id != t.id;
      s[i := t]
    case None =>
      AppendById(s, t);
      assert forall j :: 0 <= j < |s| ==> (s + [t])[j] == s[j];
      s + [t]
  }

  /** `findByDoctorIdAndDateOrderByTokenNumberAsc`: the tokens of the
      (doctor, date) partition in ascending token-number order. */
  function FindByDoctorAndDateOrdered(s: seq<Token>, doctorId: Id, date: Date): (r: seq<Token>)
    ensures multiset(r) == multiset(Filter(s, InPartition(doctorId, date)))
    ensures forall t :: t in r <==> t in s && t.doctorId == doctorId && t.date == date
    ensures forall i, j :: 0 <= i < j < |r| ==> r[i].tokenNumber <= r[j].tokenNumber
  {
    var part := Filter(s, InPartition(doctorId, date));
    var r := SortBy(part, TokenNumberKey());
    SameMultisetSameMembers(r, part);
    assert forall t :: t in r <==> t in part;
    assert forall i, j :: 0 <= i < j < |r| ==> TokenNumberKey()(r[i]) <= TokenNumberKey()(r[j]);
    r
  }

  /** `findByDoctorIdAndDateAndStatus`. */
  function FindByDoctorAndDateAndStatus(s: seq<Token>, doctorId: Id, date: Date, status: TokenStatus): (r: seq<Token>)
    ensures forall t :: t in r <==> t in s && t.doctorId == doctorId && t.date == date && t.status == status
    ensures |r| == |Indices(s, InPartitionWithStatus(doctorId, date, status))|
  {
    FilterSizeIsIndexCount(s, InPartitionWithStatus(doctorId, date, status));
    Filter(s, InPartitionWithStatus(doctorId, date, status))
  }

  /** The index of the first record, in iteration order, that belongs to
      the given (patient, doctor, date). */
  function FirstIndexOfPatientAt(s: seq<Token>, patientId: Id, doctorId: Id, date: Date): (r: Option<nat>)
    ensures r.None? <==> forall i :: 0 <= i < |s| ==> !OfPatientAt(patientId, doctorId, date)(s[i])
    ensures r.Some? ==> r.value < |s| && OfPatientAt(patientId, doctorId, date)(s[r.value])
    ensures r.Some? ==> forall j :: 0 <= j < r.value ==> !OfPatientAt(patientId, doctorId, date)(s[j])
  {
    if |s| == 0 then None
    else if OfPatientAt(patientId, doctorId, date)(s[0]) then Some(0)
    else match FirstIndexOfPatientAt(s[1..], patientId, doctorId, date)
      case None => None
      case Some(k) => Some(k + 1)
  }

  /** `findByPatientIdAndDoctorIdAndDate`: the record for the given
      (patient, doctor, date); when several match, the first in iteration
      order. */
  function FindByPatientAndDoctorAndDate(s: seq<Token>, patientId: Id, doctorId: Id, date: Date): (r: Option<Token>)
    ensures r.Some? ==> r.value in s && OfPatientAt(patientId, doctorId, date)(r.value)
    ensures r.None? <==> forall t :: t in s ==> !OfPatientAt(patientId, doctorId, date)(t)
  {
    match FirstIndexOfPatientAt(s, patientId, doctorId, date)
    case None => None
    case Some(k) => Some(s[k])
  }

  /** `countByDoctorIdAndDate`: the number of records of the partition. */
  function CountByDoctorAndDate(s: seq<Token>, doctorId: Id, date: Date): (n: nat)
    ensures n == |Indices(s, InPartition(doctorId, date))|
  {
    FilterSizeIsIndexCount(s, InPartition(doctorId, date));
    |Filter(s, InPartition(doctorId, date))|
  }
}
