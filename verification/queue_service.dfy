/** The queue-token engine (`QueueService`): issuance, priority dispatch,
    status transitions, position recomputation, the queue snapshot, the
    per-patient listing and the status message. Time is the parameter `now`,
    and the id of a new token is a parameter standing for a random UUID. */
module QueueService {
  import opened Wrappers
  import opened Text
  import opened Seqs
  import opened QueueToken
  import opened TokenRepository

  /** `AVERAGE_CONSULTATION_MINUTES`. */
  const AverageConsultationMinutes: nat := 15

  datatype QueueError =
    | DuplicateActiveToken   // TokenAlreadyExistsException
    | EmptyQueue             // "No tokens in queue"
    | TokenNotFound          // "Token not found"

  /** `TokenGenerationRequest`; a missing priority is `None`. */
  datatype TokenRequest = TokenRequest(
    patientId: Id,
    doctorId: Id,
    departmentId: Id,
    date: Date,
    appointmentId: Option<Id>,
    priority: Option<string>)

  /** `QueueStatusResponse`. */
  datatype QueueStatus = QueueStatus(
    doctorId: Id,
    date: Date,
    currentToken: nat,
    totalWaiting: nat,
    averageWaitMinutes: nat,
    lastServedToken: nat)

  /** The status line of a token response: the queue place for a waiting
      token, a fixed text otherwise. */
  datatype StatusMessage = QueuePlace(position: nat, waitMinutes: nat) | Fixed(text: string)

  // ---------------------------------------------------------------------
  // Priority parsing
  // ---------------------------------------------------------------------

  /** `parsePriority`: a case-insensitive match of a priority name selects
      that priority; a missing or unknown string falls back to NORMAL. */
  function ParsePriority(raw: Option<string>): (p: TokenPriority)
    ensures forall q :: raw.Some? && CaseVariantOf(raw.value, PriorityName(q)) ==> p == q
    ensures p != Normal ==> raw.Some? && CaseVariantOf(raw.value, PriorityName(p))
    ensures raw.None? ==> p == Normal
  {
    match raw
    case None => Normal
    case Some(s) =>
      UpperMatchesCaseVariant(s, "EMERGENCY");
      UpperMatchesCaseVariant(s, "HIGH");
      UpperMatchesCaseVariant(s, "NORMAL");
      UpperMatchesCaseVariant(s, "LOW");
      var u := Upper(s);
      if u == "EMERGENCY" then Emergency
      else if u == "HIGH" then High
      else if u == "NORMAL" then Normal
      else if u == "LOW" then Low
      else Normal
  }

  // ---------------------------------------------------------------------
  // Counting and position recomputation
  // ---------------------------------------------------------------------

  function TokenNumberBelow(n: nat): Token -> bool
  {
    (t: Token) => t.tokenNumber < n
  }

  /** WAITING tokens of the (doctor, date) partition numbered below `n`. */
  function WaitingBefore(doctorId: Id, date: Date, n: nat): Token -> bool
  {
    (t: Token) => t.doctorId == doctorId && t.date == date && t.status == Waiting && t.tokenNumber < n
  }

  /** The number of WAITING tokens of the partition. */
  function CountWaiting(s: seq<Token>, doctorId: Id, date: Date): nat
  {
    |FindByDoctorAndDateAndStatus(s, doctorId, date, Waiting)|
  }

  /** The WAITING count is the number of WAITING records of the partition. */
  lemma CountWaitingIsIndexCount(s: seq<Token>, doctorId: Id, date: Date)
    ensures CountWaiting(s, doctorId, date) == |Indices(s, InPartitionWithStatus(doctorId, date, Waiting))|
  {
    FilterSizeIsIndexCount(s, InPartitionWithStatus(doctorId, date, Waiting));
  }

  /** `getNextTokenNumber`. */
  function NextTokenNumber(s: seq<Token>, doctorId: Id, date: Date): nat
  {
    CountByDoctorAndDate(s, doctorId, date) + 1
  }

  /** `calculatePosition`. */
  function CalculatePosition(s: seq<Token>, doctorId: Id, date: Date): nat
  {
    CountWaiting(s, doctorId, date) + 1
  }

  /** The position `updateTokenPosition` computes: one more than the size of
      the partition's WAITING list filtered to smaller numbers. */
  function PositionOf(s: seq<Token>, t: Token): nat
  {
    var waiting := FindByDoctorAndDateAndStatus(s, t.doctorId, t.date, Waiting);
    |Filter(waiting, TokenNumberBelow(t.tokenNumber))| + 1
  }

  /** `updateTokenPosition` without the save: position, wait and estimated
      time are refreshed, whatever the token's status; nothing else
      changes. */
  function UpdateTokenPosition(s: seq<Token>, t: Token, now: Time): (r: Token)
    ensures r == t.(position := r.position, estimatedWaitMinutes := r.estimatedWaitMinutes,
                    estimatedTime := r.estimatedTime)
    ensures r.position >= 1
    ensures r.estimatedWaitMinutes == r.position * AverageConsultationMinutes
    ensures r.estimatedTime == now + r.estimatedWaitMinutes
  {
    var position := PositionOf(s, t);
    var wait := position * AverageConsultationMinutes;
    t.(position := position, estimatedWaitMinutes := wait, estimatedTime := now + wait)
  }

  /** The refreshed position is one more than the number of WAITING records
      of the same partition with a smaller number. */
  lemma PositionCountsEarlierWaiting(s: seq<Token>, t: Token, now: Time)
    ensures UpdateTokenPosition(s, t, now).position
            == |Indices(s, WaitingBefore(t.doctorId, t.date, t.tokenNumber))| + 1
  {
    FilterTwice(s, InPartitionWithStatus(t.doctorId, t.date, Waiting), TokenNumberBelow(t.tokenNumber),
                WaitingBefore(t.doctorId, t.date, t.tokenNumber));
    FilterSizeIsIndexCount(s, WaitingBefore(t.doctorId, t.date, t.tokenNumber));
  }

  /** A WAITING token of the store is never placed after the last WAITING
      place of its partition. */
  lemma PositionWithinWaitingCount(s: seq<Token>, t: Token, now: Time)
    requires t in s && t.status == Waiting
    ensures UpdateTokenPosition(s, t, now).position <= CountWaiting(s, t.doctorId, t.date)
  {
    PositionIsSingleFilter(s, t);
    FilterCountStrict(s, WaitingBefore(t.doctorId, t.date, t.tokenNumber),
                      InPartitionWithStatus(t.doctorId, t.date, Waiting), t);
  }

  /** Of two WAITING tokens of a partition, the one with the smaller number
      gets the smaller position. */
  lemma PositionsFollowNumbers(s: seq<Token>, a: Token, b: Token)
    requires a in s && a.status == Waiting
    requires b.doctorId == a.doctorId && b.date == a.date
    requires a.tokenNumber < b.tokenNumber
    ensures PositionOf(s, a) < PositionOf(s, b)
  {
    PositionIsSingleFilter(s, a);
    PositionIsSingleFilter(s, b);
    FilterCountStrict(s, WaitingBefore(a.doctorId, a.date, a.tokenNumber),
                      WaitingBefore(a.doctorId, a.date, b.tokenNumber), a);
  }

  /** The position counts the records passing a single test. */
  lemma PositionIsSingleFilter(s: seq<Token>, t: Token)
    ensures PositionOf(s, t) == |Filter(s, WaitingBefore(t.doctorId, t.date, t.tokenNumber))| + 1
  {
    FilterTwice(s, InPartitionWithStatus(t.doctorId, t.date, Waiting), TokenNumberBelow(t.tokenNumber),
                WaitingBefore(t.doctorId, t.date, t.tokenNumber));
  }

  /** Two records agree on everything the queue logic reads: id, partition,
      status and number. */
  predicate SameKeys(a: Token, b: Token)
  {
    a.id == b.id && a.doctorId == b.doctorId && a.date == b.date
    && a.status == b.status && a.tokenNumber == b.tokenNumber
  }

  predicate SameKeysPointwise(a: seq<Token>, b: seq<Token>)
  {
    |a| == |b| && forall i :: 0 <= i < |a| ==> SameKeys(a[i], b[i])
  }

  /** Recomputing a position reads only the keys of the store, so stores that
      agree on them give the same result. */
  lemma PositionReadsOnlyKeys(a: seq<Token>, b: seq<Token>, t: Token)
    requires SameKeysPointwise(a, b)
    ensures PositionOf(a, t) == PositionOf(b, t)
  {
    PositionIsSingleFilter(a, t);
    PositionIsSingleFilter(b, t);
    var p := WaitingBefore(t.doctorId, t.date, t.tokenNumber);
    assert forall i :: 0 <= i < |a| ==> p(a[i]) == p(b[i]) by {
      forall i | 0 <= i < |a| ensures p(a[i]) == p(b[i]) {
        assert SameKeys(a[i], b[i]);
      }
    }
    FilterCountPointwise(a, b, p, p);
  }

  /** `after` is `before` with every WAITING token of the partition given the
      position computed against `before`, and every other record unchanged. */
  ghost predicate PositionsRecomputed(before: seq<Token>, after: seq<Token>, doctorId: Id, date: Date, now: Time)
  {
    |after| == |before|
    && forall i :: 0 <= i < |before| ==>
         after[i] == if InPartitionWithStatus(doctorId, date, Waiting)(before[i])
                     then UpdateTokenPosition(before, before[i], now)
                     else before[i]
  }

  /** `r` is `s` with the WAITING tokens of the partition that occur in
      `done` recomputed against `s`, and every other record unchanged. */
  ghost predicate RecomputedUpTo(s: seq<Token>, r: seq<Token>, done: seq<Token>, doctorId: Id, date: Date, now: Time)
  {
    SameKeysPointwise(r, s)
    && forall j :: 0 <= j < |s| ==>
         r[j] == if InPartitionWithStatus(doctorId, date, Waiting)(s[j]) && s[j] in done
                 then UpdateTokenPosition(s, s[j], now)
                 else s[j]
  }

  /** One iteration of `updateQueuePositions`: refreshing and saving the
      next token of the WAITING snapshot extends the recomputed part by it. */
  lemma RecomputeStep(s: Store, r: Store, waiting: seq<Token>, i: nat, doctorId: Id, date: Date, now: Time)
    requires waiting == FindByDoctorAndDateAndStatus(s, doctorId, date, Waiting)
    requires i < |waiting|
    requires RecomputedUpTo(s, r, waiting[..i], doctorId, date, now)
    ensures RecomputedUpTo(s, Save(r, UpdateTokenPosition(r, waiting[i], now)), waiting[..i + 1], doctorId, date, now)
  {
    var t := waiting[i];
    var k := SnapshotEntry(s, waiting, i, doctorId, date);
    assert waiting[..i + 1] == waiting[..i] + [t];
    RefreshReadsOnlyKeys(r, s, t, now);
    var u := UpdateTokenPosition(r, t, now);
    assert SameKeys(r[k], s[k]);
    SaveReplacesAt(r, k, u);
    RecomputeStepAll(s, r, waiting[..i], k, u, doctorId, date, now);
  }

  /** An entry of the partition's WAITING snapshot is a WAITING record of
      the partition in the store. */
  lemma SnapshotEntry(s: seq<Token>, waiting: seq<Token>, i: nat, doctorId: Id, date: Date) returns (k: nat)
    requires waiting == FindByDoctorAndDateAndStatus(s, doctorId, date, Waiting)
    requires i < |waiting|
    ensures k < |s| && s[k] == waiting[i]
    ensures InPartitionWithStatus(doctorId, date, Waiting)(s[k])
  {
    assert waiting[i] in waiting;
    k :| 0 <= k < |s| && s[k] == waiting[i];
  }

  /** Refreshing a record against stores that agree on their keys gives the
      same record. */
  lemma RefreshReadsOnlyKeys(a: seq<Token>, b: seq<Token>, t: Token, now: Time)
    requires SameKeysPointwise(a, b)
    ensures UpdateTokenPosition(a, t, now) == UpdateTokenPosition(b, t, now)
  {
    PositionReadsOnlyKeys(a, b, t);
  }

  /** One iteration of `updateQueuePositions`, record by record: replacing
      `r[k]` by the refreshed `s[k]` extends the recomputed part by `s[k]`. */
  lemma RecomputeStepAll(s: Store, r: seq<Token>, done: seq<Token>, k: nat, u: Token,
                         doctorId: Id, date: Date, now: Time)
    requires RecomputedUpTo(s, r, done, doctorId, date, now)
    requires k < |s| && InPartitionWithStatus(doctorId, date, Waiting)(s[k])
    requires u == UpdateTokenPosition(s, s[k], now)
    ensures RecomputedUpTo(s, r[k := u], done + [s[k]], doctorId, date, now)
  {
    forall j | 0 <= j < |s|
      ensures SameKeys(r[k := u][j], s[j])
      ensures r[k := u][j] == if InPartitionWithStatus(doctorId, date, Waiting)(s[j]) && s[j] in done + [s[k]]
                              then UpdateTokenPosition(s, s[j], now)
                              else s[j]
    {
      RecomputeStepAt(s, r, done, k, u, j, doctorId, date, now);
    }
  }

  /** The record at `j` after one iteration of `updateQueuePositions` that
      saved `u`, the refreshed `s[k]`. */
  lemma RecomputeStepAt(s: Store, r: seq<Token>, done: seq<Token>, k: nat, u: Token, j: nat,
                        doctorId: Id, date: Date, now: Time)
    requires |r| == |s| && k < |s| && j < |s|
    requires InPartitionWithStatus(doctorId, date, Waiting)(s[k])
    requires u == UpdateTokenPosition(s, s[k], now)
    requires SameKeys(r[j], s[j])
    requires r[j] == if InPartitionWithStatus(doctorId, date, Waiting)(s[j]) && s[j] in done
                     then UpdateTokenPosition(s, s[j], now)
                     else s[j]
    ensures SameKeys(r[k := u][j], s[j])
    ensures r[k := u][j] == if InPartitionWithStatus(doctorId, date, Waiting)(s[j]) && s[j] in done + [s[k]]
                            then UpdateTokenPosition(s, s[j], now)
                            else s[j]
  {
    if j != k {
      assert s[j].id != s[k].id;
      assert s[j] in done + [s[k]] <==> s[j] in done;
    }
  }

  /** Saving a record whose id the `k`-th record has replaces that record. */
  lemma SaveReplacesAt(r: Store, k: nat, u: Token)
    requires k < |r| && r[k].id == u.id
    ensures Save(r, u) == r[k := u]
  {
    assert FindById(r, u.id).Some?;
  }

  /** Once every WAITING token of the partition has been refreshed, the
      store holds the recomputed positions. */
  lemma RecomputeDone(s: seq<Token>, r: seq<Token>, done: seq<Token>, doctorId: Id, date: Date, now: Time)
    requires RecomputedUpTo(s, r, done, doctorId, date, now)
    requires done == FindByDoctorAndDateAndStatus(s, doctorId, date, Waiting)
    ensures PositionsRecomputed(s, r, doctorId, date, now)
  {
    forall j | 0 <= j < |s| && InPartitionWithStatus(doctorId, date, Waiting)(s[j])
      ensures s[j] in done
    {
      assert s[j] in s;
    }
  }

  /** `updateQueuePositions`: recomputes, one after the other, the position
      of every token of the partition's WAITING list taken at the start. */
  method UpdateQueuePositions(s: Store, doctorId: Id, date: Date, now: Time) returns (r: Store)
    ensures PositionsRecomputed(s, r, doctorId, date, now)
  {
    var waiting := FindByDoctorAndDateAndStatus(s, doctorId, date, Waiting);
    r := s;
    var i := 0;
    while i < |waiting|
      invariant 0 <= i <= |waiting|
      invariant RecomputedUpTo(s, r, waiting[..i], doctorId, date, now)
    {
      RecomputeStep(s, r, waiting, i, doctorId, date, now);
      var updated := UpdateTokenPosition(r, waiting[i], now);
      var saved: Store := Save(r, updated);
      r := saved;
      i := i + 1;
    }
    assert waiting[..i] == waiting;
    RecomputeDone(s, r, waiting, doctorId, date, now);
  }

  // ---------------------------------------------------------------------
  // Issuance
  // ---------------------------------------------------------------------

  /** The record `generateToken` builds for a request. */
  function NewToken(s: seq<Token>, req: TokenRequest, id: Id, now: Time): Token
  {
    var number := NextTokenNumber(s, req.doctorId, req.date);
    var position := CalculatePosition(s, req.doctorId, req.date);
    var wait := position * AverageConsultationMinutes;
    Token(id, req.patientId, req.doctorId, req.departmentId, number, req.date, now, now + wait,
          None, Waiting, position, wait, req.appointmentId, ParsePriority(req.priority))
  }

  /** The new token carries the request's keys, status WAITING, the next
      number of its partition, the place after every WAITING token, and the
      wait that place implies. */
  ghost predicate IssuedFor(s: seq<Token>, req: TokenRequest, id: Id, now: Time, t: Token)
  {
    && t.id == id
    && t.patientId == req.patientId && t.doctorId == req.doctorId && t.date == req.date
    && t.departmentId == req.departmentId && t.appointmentId == req.appointmentId
    && t.status == Waiting
    && t.tokenNumber == |Indices(s, InPartition(req.doctorId, req.date))| + 1
    && t.position == |Indices(s, InPartitionWithStatus(req.doctorId, req.date, Waiting))| + 1
    && t.estimatedWaitMinutes == t.position * AverageConsultationMinutes
    && t.issueTime == now && t.estimatedTime == now + t.estimatedWaitMinutes
    && t.actualCallTime == None
    && t.priority == ParsePriority(req.priority)
  }

  /** `after` is `before` with `t` stored under its id: replaced in place
      when the id is taken, appended otherwise. */
  ghost predicate Upserted(before: seq<Token>, after: seq<Token>, t: Token)
  {
    && |after| == (if exists i :: 0 <= i < |before| && before[i].id == t.id then |before| else |before| + 1)
    && (forall i :: 0 <= i < |before| ==> after[i] == if before[i].id == t.id then t else before[i])
    && (|after| > |before| ==> after[|before|] == t)
  }

  lemma NewTokenIsIssuedFor(s: seq<Token>, req: TokenRequest, id: Id, now: Time)
    ensures IssuedFor(s, req, id, now, NewToken(s, req, id, now))
  {
    CountWaitingIsIndexCount(s, req.doctorId, req.date);
  }

  lemma SaveUpserts(s: Store, t: Token)
    ensures Upserted(s, Save(s, t), t)
  {
  }

  /** The (patient, doctor, date) of the request already has a WAITING
      token. */
  predicate HasWaitingToken(s: seq<Token>, patientId: Id, doctorId: Id, date: Date)
  {
    exists i :: 0 <= i < |s| && OfPatientAt(patientId, doctorId, date)(s[i]) && s[i].status == Waiting
  }

  /** The record the visit lookup returns is the one at the only index
      that matches the visit with no match before it. */
  lemma FirstRecordOfVisit(s: seq<Token>, patientId: Id, doctorId: Id, date: Date)
    ensures forall i :: 0 <= i < |s| && OfPatientAt(patientId, doctorId, date)(s[i])
                        && (forall j :: 0 <= j < i ==> !OfPatientAt(patientId, doctorId, date)(s[j]))
              ==> FindByPatientAndDoctorAndDate(s, patientId, doctorId, date) == Some(s[i])
    ensures FindByPatientAndDoctorAndDate(s, patientId, doctorId, date).Some? ==>
              exists i :: 0 <= i < |s| && OfPatientAt(patientId, doctorId, date)(s[i])
                && (forall j :: 0 <= j < i ==> !OfPatientAt(patientId, doctorId, date)(s[j]))
                && FindByPatientAndDoctorAndDate(s, patientId, doctorId, date) == Some(s[i])
  {
    var first := FirstIndexOfPatientAt(s, patientId, doctorId, date);
    forall i | 0 <= i < |s| && OfPatientAt(patientId, doctorId, date)(s[i])
                && (forall j :: 0 <= j < i ==> !OfPatientAt(patientId, doctorId, date)(s[j]))
      ensures FindByPatientAndDoctorAndDate(s, patientId, doctorId, date) == Some(s[i])
    {
      assert first.Some?;
      assert first.value <= i;
      assert first.value == i;
    }
  }

  /** `generateToken` as written: only the first record for the (patient,
      doctor, date) is inspected, and issuance is refused when that record is
      WAITING. */
  function GenerateTokenAsWritten(s: Store, req: TokenRequest, id: Id, now: Time): (r: Result<(Token, Store), QueueError>)
    ensures r.Failure? <==> exists i :: 0 <= i < |s| && s[i].status == Waiting
                                        && OfPatientAt(req.patientId, req.doctorId, req.date)(s[i])
                                        && forall j :: 0 <= j < i ==> !OfPatientAt(req.patientId, req.doctorId, req.date)(s[j])
    ensures r.Failure? ==> r.error == DuplicateActiveToken
    ensures r.Success? ==> IssuedFor(s, req, id, now, r.value.0) && Upserted(s, r.value.1, r.value.0)
  {
    var existing := FindByPatientAndDoctorAndDate(s, req.patientId, req.doctorId, req.date);
    FirstRecordOfVisit(s, req.patientId, req.doctorId, req.date);
    if existing.Some? && existing.value.status == Waiting then Failure(DuplicateActiveToken)
    else
      var t := NewToken(s, req, id, now);
      NewTokenIsIssuedFor(s, req, id, now);
      SaveUpserts(s, t);
      Success((t, Save(s, t)))
  }

  /** `generateToken` with the guard it evidently intends: issuance is
      refused exactly when the (patient, doctor, date) has a WAITING token. */
  function GenerateToken(s: Store, req: TokenRequest, id: Id, now: Time): (r: Result<(Token, Store), QueueError>)
    ensures r.Failure? <==> exists i :: 0 <= i < |s| && s[i].status == Waiting
                                        && OfPatientAt(req.patientId, req.doctorId, req.date)(s[i])
    ensures r.Failure? ==> r.error == DuplicateActiveToken
    ensures r.Success? ==> IssuedFor(s, req, id, now, r.value.0) && Upserted(s, r.value.1, r.value.0)
  {
    if HasWaitingToken(s, req.patientId, req.doctorId, req.date) then Failure(DuplicateActiveToken)
    else
      var t := NewToken(s, req, id, now);
      NewTokenIsIssuedFor(s, req, id, now);
      SaveUpserts(s, t);
      Success((t, Save(s, t)))
  }

  // ---------------------------------------------------------------------
  // Lookup with position refresh
  // ---------------------------------------------------------------------

  /** `getTokenStatus`: looks the token up and refreshes its position and
      wait, whatever its status, saving the refreshed record. */
  function GetTokenStatus(s: Store, id: Id, now: Time): (r: Result<(Token, Store), QueueError>)
    ensures r.Failure? <==> forall i :: 0 <= i < |s| ==> s[i].id != id
    ensures r.Failure? ==> r.error == TokenNotFound
    ensures r.Success? ==> forall i :: 0 <= i < |s| && s[i].id == id ==>
              && r.value.0 == UpdateTokenPosition(s, s[i], now)
              && r.value.1 == s[i := r.value.0]
  {
    match FindById(s, id)
    case None => Failure(TokenNotFound)
    case Some(t) =>
      var refreshed := UpdateTokenPosition(s, t, now);
      var s' := Save(s, refreshed);
      assert forall i :: 0 <= i < |s| && s[i].id == id ==> s' == s[i := refreshed];
      Success((refreshed, s'))
  }

  // ---------------------------------------------------------------------
  // Dispatch
  // ---------------------------------------------------------------------

  /** The index of the token `callNextToken` picks from a non-empty WAITING
      list: no entry is dispatched before it, and every earlier entry is
      dispatched after it (a stable sort followed by `findFirst`). */
  function FirstMinimal(w: seq<Token>): (k: nat)
    requires |w| > 0
    ensures k < |w|
    ensures forall i :: 0 <= i < |w| ==> !DispatchesBefore(w[i], w[k])
    ensures forall i :: 0 <= i < k ==> DispatchesBefore(w[k], w[i])
  {
    if |w| == 1 then 0
    else
      var k := FirstMinimal(w[..|w| - 1]);
      if DispatchesBefore(w[|w| - 1], w[k]) then |w| - 1 else k
  }

  /** `callNextToken`: marks CALLED, at `now`, the WAITING token of the
      partition with the smallest rank and, among those, the smallest
      number. */
  function CallNextToken(s: Store, doctorId: Id, date: Date, now: Time): (r: Result<(Token, Store), QueueError>)
    ensures r.Failure? <==> forall i :: 0 <= i < |s| ==> !InPartitionWithStatus(doctorId, date, Waiting)(s[i])
    ensures r.Failure? ==> r.error == EmptyQueue
    ensures r.Success? ==>
              exists k :: 0 <= k < |s|
                && InPartitionWithStatus(doctorId, date, Waiting)(s[k])
                && (forall i :: 0 <= i < |s| && InPartitionWithStatus(doctorId, date, Waiting)(s[i])
                      ==> !DispatchesBefore(s[i], s[k]))
                && r.value.0 == s[k].(status := Called, actualCallTime := Some(now))
                && r.value.1 == s[k := r.value.0]
  {
    var waiting := FindByDoctorAndDateAndStatus(s, doctorId, date, Waiting);
    if |waiting| == 0 then
      assert forall i :: 0 <= i < |s| ==> s[i] !in waiting;
      Failure(EmptyQueue)
    else
      var m := FirstMinimal(waiting);
      var next := waiting[m];
      var called := next.(status := Called, actualCallTime := Some(now));
      assert next in s;
      var k :| 0 <= k < |s| && s[k] == next;
      assert forall i :: 0 <= i < |s| && InPartitionWithStatus(doctorId, date, Waiting)(s[i])
               ==> s[i] in waiting;
      var s' := Save(s, called);
      assert s' == s[k := called];
      Success((called, s'))
  }

  // ---------------------------------------------------------------------
  // Status transitions
  // ---------------------------------------------------------------------

  /** The store with the record of the given id set to `status`. */
  ghost function WithStatus(s: seq<Token>, id: Id, status: TokenStatus): seq<Token>
  {
    seq(|s|, i requires 0 <= i < |s| => if s[i].id == id then s[i].(status := status) else s[i])
  }

  /** Looks the token up and sets its status, from whatever status it had. */
  function SetStatus(s: Store, id: Id, status: TokenStatus): (r: Result<Store, QueueError>)
    ensures r.Failure? <==> forall i :: 0 <= i < |s| ==> s[i].id != id
    ensures r.Failure? ==> r.error == TokenNotFound
    ensures r.Success? ==> r.value == WithStatus(s, id, status)
  {
    match FindById(s, id)
    case None => Failure(TokenNotFound)
    case Some(t) => Success(Save(s, t.(status := status)))
  }

  /** `startConsultation`: the token becomes IN_PROGRESS from any status;
      nothing else changes. */
  function StartConsultation(s: Store, id: Id): (r: Result<Store, QueueError>)
    ensures r.Failure? <==> forall i :: 0 <= i < |s| ==> s[i].id != id
    ensures r.Failure? ==> r.error == TokenNotFound
    ensures r.Success? ==> |r.value| == |s|
    ensures r.Success? ==> forall i :: 0 <= i < |s| ==>
              r.value[i] == if s[i].id == id then s[i].(status := InProgress) else s[i]
  {
    SetStatus(s, id, InProgress)
  }

  /** No two WAITING tokens of the partition share a number. */
  ghost predicate WaitingNumbersDistinct(s: seq<Token>, doctorId: Id, date: Date)
  {
    forall i, j :: 0 <= i < j < |s|
      && InPartitionWithStatus(doctorId, date, Waiting)(s[i])
      && InPartitionWithStatus(doctorId, date, Waiting)(s[j])
      ==> s[i].tokenNumber != s[j].tokenNumber
  }

  /** The positions of the partition's M WAITING tokens are pairwise distinct
      and lie in 1..M: a permutation of 1..M. */
  ghost predicate PositionsArePermutation(s: seq<Token>, doctorId: Id, date: Date)
  {
    && (forall i :: 0 <= i < |s| && InPartitionWithStatus(doctorId, date, Waiting)(s[i])
          ==> 1 <= s[i].position <= CountWaiting(s, doctorId, date))
    && (forall i, j :: 0 <= i < j < |s|
          && InPartitionWithStatus(doctorId, date, Waiting)(s[i])
          && InPartitionWithStatus(doctorId, date, Waiting)(s[j])
          ==> s[i].position != s[j].position)
  }

  /** A recomputation changes neither which records are WAITING in the
      partition nor how many there are. */
  lemma RecomputationKeepsWaitingSet(before: seq<Token>, after: seq<Token>, doctorId: Id, date: Date, now: Time)
    requires PositionsRecomputed(before, after, doctorId, date, now)
    ensures forall i :: 0 <= i < |before| ==>
              InPartitionWithStatus(doctorId, date, Waiting)(after[i]) == InPartitionWithStatus(doctorId, date, Waiting)(before[i])
    ensures CountWaiting(after, doctorId, date) == CountWaiting(before, doctorId, date)
  {
    var waiting := InPartitionWithStatus(doctorId, date, Waiting);
    forall i | 0 <= i < |before|
      ensures waiting(after[i]) == waiting(before[i])
    {
    }
    FilterCountPointwise(after, before, waiting, waiting);
  }

  /** After a recomputation, the WAITING positions of the partition form a
      permutation of 1..M when the WAITING numbers are distinct. */
  lemma RecomputedPositionsArePermutation(before: seq<Token>, after: seq<Token>, doctorId: Id, date: Date, now: Time)
    requires PositionsRecomputed(before, after, doctorId, date, now)
    requires WaitingNumbersDistinct(after, doctorId, date)
    ensures PositionsArePermutation(after, doctorId, date)
  {
    var waiting := InPartitionWithStatus(doctorId, date, Waiting);
    RecomputationKeepsWaitingSet(before, after, doctorId, date, now);
    forall i | 0 <= i < |after| && waiting(after[i])
      ensures 1 <= after[i].position <= CountWaiting(after, doctorId, date)
    {
      assert before[i] in before;
      PositionWithinWaitingCount(before, before[i], now);
    }
    forall i, j | 0 <= i < j < |after| && waiting(after[i]) && waiting(after[j])
      ensures after[i].position != after[j].position
    {
      var a, b := before[i], before[j];
      assert a in before && b in before;
      if a.tokenNumber < b.tokenNumber {
        PositionsFollowNumbers(before, a, b);
      } else {
        PositionsFollowNumbers(before, b, a);
      }
    }
  }

  /** What `completeToken` leaves behind once the record at `k` is COMPLETED
      and its partition recomputed. */
  lemma CompletionOutcome(s: Store, k: nat, updated: seq<Token>, now: Time)
    requires k < |s|
    requires PositionsRecomputed(WithStatus(s, s[k].id, Completed), updated, s[k].doctorId, s[k].date, now)
    ensures |updated| == |s|
    ensures updated[k] == s[k].(status := Completed)
    ensures WaitingNumbersDistinct(updated, s[k].doctorId, s[k].date)
            ==> PositionsArePermutation(updated, s[k].doctorId, s[k].date)
  {
    var completed := WithStatus(s, s[k].id, Completed);
    assert completed[k] == s[k].(status := Completed);
    if WaitingNumbersDistinct(updated, s[k].doctorId, s[k].date) {
      RecomputedPositionsArePermutation(completed, updated, s[k].doctorId, s[k].date, now);
    }
  }

  /** `completeToken`: the token becomes COMPLETED from any status, then
      every WAITING token of its partition gets its position recomputed. */
  method CompleteToken(s: Store, id: Id, now: Time) returns (r: Result<Store, QueueError>)
    ensures r.Failure? <==> forall i :: 0 <= i < |s| ==> s[i].id != id
    ensures r.Failure? ==> r.error == TokenNotFound
    ensures r.Success? ==> |r.value| == |s|
    ensures r.Success? ==> forall i :: 0 <= i < |s| && s[i].id == id ==>
              && r.value[i] == s[i].(status := Completed)
              && PositionsRecomputed(WithStatus(s, id, Completed), r.value, s[i].doctorId, s[i].date, now)
              && (WaitingNumbersDistinct(r.value, s[i].doctorId, s[i].date)
                  ==> PositionsArePermutation(r.value, s[i].doctorId, s[i].date))
  {
    var found := FindById(s, id);
    if found.None? {
      return Failure(TokenNotFound);
    }
    var token := found.value;
    var k :| 0 <= k < |s| && s[k] == token;
    var completed := SetStatus(s, id, Completed).value;
    var updated := UpdateQueuePositions(completed, token.doctorId, token.date, now);
    CompletionOutcome(s, k, updated, now);
    return Success(updated);
  }

  // ---------------------------------------------------------------------
  // Queue snapshot
  // ---------------------------------------------------------------------

  /** The index of the first record with the given status. */
  function FirstIndexWithStatus(w: seq<Token>, status: TokenStatus): (r: Option<nat>)
    ensures r.None? <==> forall i :: 0 <= i < |w| ==> w[i].status != status
    ensures r.Some? ==> r.value < |w| && w[r.value].status == status
    ensures r.Some? ==> forall j :: 0 <= j < r.value ==> w[j].status != status
  {
    if |w| == 0 then None
    else if w[0].status == status then Some(0)
    else match FirstIndexWithStatus(w[1..], status)
      case None => None
      case Some(k) => Some(k + 1)
  }

  /** The largest number among records with the given status, or 0. */
  function MaxNumberWithStatus(w: seq<Token>, status: TokenStatus): (m: nat)
    ensures (forall t :: t in w ==> t.status != status) ==> m == 0
    ensures (exists t :: t in w && t.status == status) ==> exists t :: t in w && t.status == status && t.tokenNumber == m
    ensures forall t :: t in w && t.status == status ==> t.tokenNumber <= m
  {
    if |w| == 0 then 0
    else
      assert w == [w[0]] + w[1..];
      var rest := MaxNumberWithStatus(w[1..], status);
      if w[0].status == status && w[0].tokenNumber > rest then w[0].tokenNumber
      else if w[0].status == status && !(exists t :: t in w[1..] && t.status == status) then w[0].tokenNumber
      else rest
  }

  /** In a sequence ascending by number, the first record with a status
      has the smallest number among the records with that status. */
  lemma FirstWithStatusIsSmallest(w: seq<Token>, status: TokenStatus)
    requires forall i, j :: 0 <= i < j < |w| ==> w[i].tokenNumber <= w[j].tokenNumber
    requires FirstIndexWithStatus(w, status).Some?
    ensures forall t :: t in w && t.status == status ==>
      w[FirstIndexWithStatus(w, status).value].tokenNumber <= t.tokenNumber
  {
    var k := FirstIndexWithStatus(w, status).value;
    forall t | t in w && t.status == status
      ensures w[k].tokenNumber <= t.tokenNumber
    {
      var j :| 0 <= j < |w| && w[j] == t;
      assert k <= j;
    }
  }

  /** The `currentToken` of the snapshot: the number of the first
      IN_PROGRESS token in ascending number order, or 0. It is the smallest
      IN_PROGRESS number of the partition. */
  function CurrentToken(s: seq<Token>, doctorId: Id, date: Date): (c: nat)
    ensures (forall t :: t in s ==> !InPartitionWithStatus(doctorId, date, InProgress)(t)) ==> c == 0
    ensures (exists t :: t in s && InPartitionWithStatus(doctorId, date, InProgress)(t))
            ==> exists t :: t in s && InPartitionWithStatus(doctorId, date, InProgress)(t) && t.tokenNumber == c
    ensures forall t :: t in s && InPartitionWithStatus(doctorId, date, InProgress)(t) ==> c <= t.tokenNumber
  {
    var all := FindByDoctorAndDateOrdered(s, doctorId, date);
    var first := FirstIndexWithStatus(all, InProgress);
    if first.None? then 0
    else
      FirstWithStatusIsSmallest(all, InProgress);
      assert all[first.value] in all;
      all[first.value].tokenNumber
  }

  /** The `lastServedToken` of the snapshot: the largest COMPLETED number of
      the partition, or 0. */
  function LastServedToken(s: seq<Token>, doctorId: Id, date: Date): (m: nat)
    ensures (forall t :: t in s ==> !InPartitionWithStatus(doctorId, date, Completed)(t)) ==> m == 0
    ensures (exists t :: t in s && InPartitionWithStatus(doctorId, date, Completed)(t))
            ==> exists t :: t in s && InPartitionWithStatus(doctorId, date, Completed)(t) && t.tokenNumber == m
    ensures forall t :: t in s && InPartitionWithStatus(doctorId, date, Completed)(t) ==> t.tokenNumber <= m
  {
    MaxNumberWithStatus(FindByDoctorAndDateOrdered(s, doctorId, date), Completed)
  }

  /** `getQueueStatus`: the lowest IN_PROGRESS number (or 0), the WAITING
      count and the wait it implies, and the highest COMPLETED number (or
      0). */
  function GetQueueStatus(s: seq<Token>, doctorId: Id, date: Date): (r: QueueStatus)
    ensures r.doctorId == doctorId && r.date == date
    ensures r.totalWaiting == |Indices(s, InPartitionWithStatus(doctorId, date, Waiting))|
    ensures r.averageWaitMinutes == r.totalWaiting * AverageConsultationMinutes
    ensures r.currentToken == CurrentToken(s, doctorId, date)
    ensures r.lastServedToken == LastServedToken(s, doctorId, date)
  {
    var waiting := FindByDoctorAndDateAndStatus(s, doctorId, date, Waiting);
    CountWaitingIsIndexCount(s, doctorId, date);
    QueueStatus(doctorId, date, CurrentToken(s, doctorId, date), |waiting|,
                |waiting| * AverageConsultationMinutes, LastServedToken(s, doctorId, date))
  }

  // ---------------------------------------------------------------------
  // Per-patient listing
  // ---------------------------------------------------------------------

  function OfPatient(patientId: Id): Token -> bool
  {
    (t: Token) => t.patientId == patientId
  }

  /** Sorting ascending on this key puts the newest token first. */
  function NewestFirst(): Token -> int
  {
    (t: Token) => -(t.issueTime as int)
  }

  /** `getPatientTokens`: every token of the patient, newest first. */
  function GetPatientTokens(s: seq<Token>, patientId: Id): (r: seq<Token>)
    ensures forall t :: t in r <==> t in s && t.patientId == patientId
    ensures |r| == |Indices(s, OfPatient(patientId))|
    ensures forall i, j :: 0 <= i < j < |r| ==> r[i].issueTime >= r[j].issueTime
  {
    var mine := Filter(s, OfPatient(patientId));
    var r := SortBy(mine, NewestFirst());
    FilterSizeIsIndexCount(s, OfPatient(patientId));
    assert |r| == |multiset(r)| == |multiset(mine)| == |mine|;
    SameMultisetSameMembers(r, mine);
    assert forall t :: t in r <==> t in mine;
    assert forall i, j :: 0 <= i < j < |r| ==> NewestFirst()(r[i]) <= NewestFirst()(r[j]);
    r
  }

  // ---------------------------------------------------------------------
  // Status message
  // ---------------------------------------------------------------------

  /** `generateStatusMessage`: total over the statuses; only WAITING carries
      the queue place, and NO_SHOW falls through to the generic text. */
  function GenerateStatusMessage(t: Token): (m: StatusMessage)
    ensures m.QueuePlace? <==> t.status == Waiting
    ensures m.QueuePlace? ==> m.position == t.position && m.waitMinutes == t.estimatedWaitMinutes
    ensures t.status == NoShow ==> m == Fixed("Unknown status")
  {
    match t.status
    case Waiting => QueuePlace(t.position, t.estimatedWaitMinutes)
    case Called => Fixed("Your turn! Please proceed to the doctor.")
    case InProgress => Fixed("Consultation in progress.")
    case Completed => Fixed("Consultation completed.")
    case Canceled => Fixed("Token cancelled.")
    case NoShow => Fixed("Unknown status")
  }

  /** Every status has a message of its own: two tokens with the same
      message have the same status. */
  lemma StatusMessagesTellStatusesApart(a: Token, b: Token)
    requires GenerateStatusMessage(a) == GenerateStatusMessage(b)
    ensures a.status == b.status
  {
  }
}
