/** Properties of the queue engine that span several operations: the
    numbering of a partition, the one-WAITING-token-per-visit rule, the
    agreement between the position given at issuance and the recomputed one,
    and worked examples of dispatch, the snapshot and the duplicate guard. */
module QueueProperties {
  import opened Wrappers
  import opened Text
  import opened Seqs
  import opened QueueToken
  import opened TokenRepository
  import opened QueueService

  // ---------------------------------------------------------------------
  // Numbering
  // ---------------------------------------------------------------------

  /** Each token of the (doctor, date) partition carries one more than the
      number of partition tokens stored before it: the partition reads
      1, 2, ..., n in store order. */
  ghost predicate Numbered(s: seq<Token>, doctorId: Id, date: Date)
  {
    forall i :: 0 <= i < |s| && InPartition(doctorId, date)(s[i])
      ==> s[i].tokenNumber == |Filter(s[..i], InPartition(doctorId, date))| + 1
  }

  /** Every partition of the store is numbered. */
  ghost predicate WellNumbered(s: seq<Token>)
  {
    forall doctorId, date :: Numbered(s, doctorId, date)
  }

  /** Appending a token that carries the next number of its partition keeps
      the partition numbered. */
  lemma AppendKeepsNumbering(s: seq<Token>, t: Token, doctorId: Id, date: Date)
    requires Numbered(s, doctorId, date)
    requires InPartition(doctorId, date)(t) ==> t.tokenNumber == |Filter(s, InPartition(doctorId, date))| + 1
    ensures Numbered(s + [t], doctorId, date)
  {
    var s' := s + [t];
    forall i | 0 <= i < |s'| && InPartition(doctorId, date)(s'[i])
      ensures s'[i].tokenNumber == |Filter(s'[..i], InPartition(doctorId, date))| + 1
    {
      if i < |s| {
        assert s'[..i] == s[..i];
      } else {
        assert s'[..i] == s;
      }
    }
  }

  /** A token issued under a fresh id is appended to the store. */
  lemma FreshUpsertAppends(before: seq<Token>, after: seq<Token>, t: Token)
    requires Upserted(before, after, t)
    requires forall i :: 0 <= i < |before| ==> before[i].id != t.id
    ensures after == before + [t]
  {
    assert |after| == |before| + 1;
    assert forall i :: 0 <= i < |before| ==> after[i] == before[i];
  }

  /** Issuing a token under a fresh id keeps every partition numbered: the
      new token carries the next number of its own partition, and no other
      partition sees it. */
  lemma IssuanceKeepsNumbering(s: seq<Token>, req: TokenRequest, id: Id, now: Time, t: Token, after: seq<Token>)
    requires WellNumbered(s)
    requires forall i :: 0 <= i < |s| ==> s[i].id != id
    requires IssuedFor(s, req, id, now, t) && Upserted(s, after, t)
    ensures WellNumbered(after)
  {
    FreshUpsertAppends(s, after, t);
    FilterSizeIsIndexCount(s, InPartition(req.doctorId, req.date));
    forall doctorId, date
      ensures Numbered(after, doctorId, date)
    {
      AppendKeepsNumbering(s, t, doctorId, date);
    }
  }

  /** The corrected `generateToken` keeps the store well numbered when the
      new id is fresh. */
  lemma GenerateTokenKeepsNumbering(s: Store, req: TokenRequest, id: Id, now: Time)
    requires WellNumbered(s)
    requires forall i :: 0 <= i < |s| ==> s[i].id != id
    ensures GenerateToken(s, req, id, now).Success?
            ==> WellNumbered(GenerateToken(s, req, id, now).value.1)
  {
    var r := GenerateToken(s, req, id, now);
    if r.Success? {
      IssuanceKeepsNumbering(s, req, id, now, r.value.0, r.value.1);
    }
  }

  /** `generateToken` as written keeps the store well numbered when the new
      id is fresh: its weaker guard changes when it issues, not what it
      issues. */
  lemma GenerateTokenAsWrittenKeepsNumbering(s: Store, req: TokenRequest, id: Id, now: Time)
    requires WellNumbered(s)
    requires forall i :: 0 <= i < |s| ==> s[i].id != id
    ensures GenerateTokenAsWritten(s, req, id, now).Success?
            ==> WellNumbered(GenerateTokenAsWritten(s, req, id, now).value.1)
  {
    var r := GenerateTokenAsWritten(s, req, id, now);
    if r.Success? {
      IssuanceKeepsNumbering(s, req, id, now, r.value.0, r.value.1);
    }
  }

  /** Two stores hold, index by index, tokens of the same partition with the
      same number. */
  ghost predicate SamePlaces(a: seq<Token>, b: seq<Token>)
  {
    |a| == |b|
    && forall i :: 0 <= i < |a| ==>
         a[i].doctorId == b[i].doctorId && a[i].date == b[i].date && a[i].tokenNumber == b[i].tokenNumber
  }

  /** Numbering reads only partitions and numbers, so any operation that
      keeps them in place keeps the store well numbered. */
  lemma SamePlacesKeepNumbering(a: seq<Token>, b: seq<Token>)
    requires SamePlaces(a, b)
    requires WellNumbered(a)
    ensures WellNumbered(b)
  {
    forall doctorId, date
      ensures Numbered(b, doctorId, date)
    {
      var p := InPartition(doctorId, date);
      assert Numbered(a, doctorId, date);
      forall i | 0 <= i < |b| && p(b[i])
        ensures b[i].tokenNumber == |Filter(b[..i], p)| + 1
      {
        assert p(a[i]);
        assert forall j :: 0 <= j < i ==> p(a[..i][j]) == p(b[..i][j]) by {
          forall j | 0 <= j < i
            ensures p(a[..i][j]) == p(b[..i][j])
          {
            assert a[..i][j] == a[j] && b[..i][j] == b[j];
          }
        }
        FilterCountPointwise(a[..i], b[..i], p, p);
      }
    }
  }

  /** Calling the next token keeps the store well numbered. */
  lemma CallNextKeepsNumbering(s: Store, doctorId: Id, date: Date, now: Time)
    requires WellNumbered(s)
    ensures CallNextToken(s, doctorId, date, now).Success?
            ==> WellNumbered(CallNextToken(s, doctorId, date, now).value.1)
  {
    var r := CallNextToken(s, doctorId, date, now);
    if r.Success? {
      SamePlacesKeepNumbering(s, r.value.1);
    }
  }

  /** Starting a consultation keeps the store well numbered. */
  lemma StartConsultationKeepsNumbering(s: Store, id: Id)
    requires WellNumbered(s)
    ensures StartConsultation(s, id).Success? ==> WellNumbered(StartConsultation(s, id).value)
  {
    var r := StartConsultation(s, id);
    if r.Success? {
      SamePlacesKeepNumbering(s, r.value);
    }
  }

  /** Looking a token up (which refreshes and saves it) keeps the store well
      numbered. */
  lemma GetTokenStatusKeepsNumbering(s: Store, id: Id, now: Time)
    requires WellNumbered(s)
    ensures GetTokenStatus(s, id, now).Success? ==> WellNumbered(GetTokenStatus(s, id, now).value.1)
  {
    var r := GetTokenStatus(s, id, now);
    if r.Success? {
      SamePlacesKeepNumbering(s, r.value.1);
    }
  }

  /** Completing a token and recomputing its partition keeps the store well
      numbered. */
  lemma CompletionKeepsNumbering(s: seq<Token>, id: Id, after: seq<Token>, doctorId: Id, date: Date, now: Time)
    requires WellNumbered(s)
    requires PositionsRecomputed(WithStatus(s, id, Completed), after, doctorId, date, now)
    ensures WellNumbered(after)
  {
    var completed := WithStatus(s, id, Completed);
    assert SamePlaces(s, completed);
    SamePlacesKeepNumbering(s, completed);
    assert SamePlaces(completed, after);
    SamePlacesKeepNumbering(completed, after);
  }

  /** In a numbered partition no two tokens share a number. */
  lemma NumberedMeansDistinct(s: seq<Token>, doctorId: Id, date: Date)
    requires Numbered(s, doctorId, date)
    ensures forall i, j :: 0 <= i < j < |s| && InPartition(doctorId, date)(s[i]) && InPartition(doctorId, date)(s[j])
              ==> s[i].tokenNumber < s[j].tokenNumber
  {
    var p := InPartition(doctorId, date);
    forall i, j | 0 <= i < j < |s| && p(s[i]) && p(s[j])
      ensures s[i].tokenNumber < s[j].tokenNumber
    {
      assert s[..j] == s[..i] + s[i..j];
      FilterAppend(s[..i], s[i..j], p);
      assert s[i] in s[i..j];
      assert s[i] in Filter(s[i..j], p);
    }
  }

  /** Every token of a numbered partition carries a number no larger than
      the size of the partition. */
  lemma NumberedWithinCount(s: seq<Token>, doctorId: Id, date: Date)
    requires Numbered(s, doctorId, date)
    ensures forall i :: 0 <= i < |s| && InPartition(doctorId, date)(s[i])
              ==> s[i].tokenNumber <= |Filter(s, InPartition(doctorId, date))|
  {
    var p := InPartition(doctorId, date);
    forall i | 0 <= i < |s| && p(s[i])
      ensures s[i].tokenNumber <= |Filter(s, p)|
    {
      FilterPrefixIsShorter(s, i, p);
    }
  }

  /** On a well-numbered store, `completeToken` always leaves the WAITING
      positions of the partition as a permutation of 1..M. */
  lemma CompletionYieldsPermutation(s: seq<Token>, id: Id, after: seq<Token>, doctorId: Id, date: Date, now: Time)
    requires WellNumbered(s)
    requires PositionsRecomputed(WithStatus(s, id, Completed), after, doctorId, date, now)
    ensures PositionsArePermutation(after, doctorId, date)
  {
    CompletionKeepsNumbering(s, id, after, doctorId, date, now);
    assert Numbered(after, doctorId, date);
    NumberedMeansDistinct(after, doctorId, date);
    RecomputedPositionsArePermutation(WithStatus(s, id, Completed), after, doctorId, date, now);
  }

  /** On a well-numbered store, the position given at issuance is the one a
      later recomputation would give the new token. */
  lemma IssuedPositionMatchesRecomputation(s: seq<Token>, req: TokenRequest, id: Id, now: Time, t: Token, after: seq<Token>)
    requires WellNumbered(s)
    requires forall i :: 0 <= i < |s| ==> s[i].id != id
    requires IssuedFor(s, req, id, now, t) && Upserted(s, after, t)
    ensures UpdateTokenPosition(after, t, now) == t
  {
    FreshUpsertAppends(s, after, t);
    var before := WaitingBefore(t.doctorId, t.date, t.tokenNumber);
    var waiting := InPartitionWithStatus(req.doctorId, req.date, Waiting);
    assert |Filter(s, before)| == |Filter(s, waiting)| by {
      var part := InPartition(req.doctorId, req.date);
      assert Numbered(s, req.doctorId, req.date);
      NumberedWithinCount(s, req.doctorId, req.date);
      FilterSizeIsIndexCount(s, part);
      assert forall i :: 0 <= i < |s| ==> before(s[i]) == waiting(s[i]);
      FilterCountPointwise(s, s, before, waiting);
    }
    assert t.position == |Filter(s, waiting)| + 1 by {
      FilterSizeIsIndexCount(s, waiting);
    }
    assert Filter(after, before) == Filter(s, before) by {
      FilterAppend(s, [t], before);
      assert [t][1..] == [];
    }
    PositionIsSingleFilter(after, t);
  }

  // ---------------------------------------------------------------------
  // One WAITING token per visit
  // ---------------------------------------------------------------------

  /** Two tokens belong to the same visit: same patient, doctor and date. */
  predicate SameVisit(a: Token, b: Token)
  {
    a.patientId == b.patientId && a.doctorId == b.doctorId && a.date == b.date
  }

  /** No visit holds two WAITING tokens: the rule the duplicate guard of
      `generateToken` exists to keep. */
  ghost predicate AtMostOneWaiting(s: seq<Token>)
  {
    forall i, j :: 0 <= i < j < |s| && s[i].status == Waiting && s[j].status == Waiting
      ==> !SameVisit(s[i], s[j])
  }

  /** The corrected `generateToken` keeps at most one WAITING token per
      visit, whatever id it is given. */
  lemma GenerateTokenKeepsOneWaiting(s: Store, req: TokenRequest, id: Id, now: Time)
    requires AtMostOneWaiting(s)
    ensures GenerateToken(s, req, id, now).Success?
            ==> AtMostOneWaiting(GenerateToken(s, req, id, now).value.1)
  {
    var r := GenerateToken(s, req, id, now);
    if r.Success? {
      var t, after := r.value.0, r.value.1;
      assert IssuedFor(s, req, id, now, t) && Upserted(s, after, t);
      forall i, j | 0 <= i < j < |after| && after[i].status == Waiting && after[j].status == Waiting
        ensures !SameVisit(after[i], after[j])
      {
        var slotI := i >= |s| || s[i].id == id;
        var slotJ := j >= |s| || s[j].id == id;
        assert j >= |s| ==> forall k :: 0 <= k < |s| ==> s[k].id != id;
        assert !(slotI && slotJ);
        if slotI {
          assert after[i] == t && after[j] == s[j];
          assert !OfPatientAt(req.patientId, req.doctorId, req.date)(s[j]);
        } else if slotJ {
          assert after[j] == t && after[i] == s[i];
          assert !OfPatientAt(req.patientId, req.doctorId, req.date)(s[i]);
        } else {
          assert after[i] == s[i] && after[j] == s[j];
        }
      }
    }
  }

  /** The guard as written lets a second WAITING token into a visit whenever
      the visit's first record is no longer WAITING but a later one is; the
      corrected guard refuses the same request. */
  lemma AsWrittenAdmitsSecondWaiting(s: Store, req: TokenRequest, id: Id, now: Time, first: nat, waiting: nat)
    requires forall i :: 0 <= i < |s| ==> s[i].id != id
    requires first < waiting < |s|
    requires forall j :: 0 <= j < first ==> !OfPatientAt(req.patientId, req.doctorId, req.date)(s[j])
    requires OfPatientAt(req.patientId, req.doctorId, req.date)(s[first]) && s[first].status != Waiting
    requires OfPatientAt(req.patientId, req.doctorId, req.date)(s[waiting]) && s[waiting].status == Waiting
    ensures GenerateTokenAsWritten(s, req, id, now).Success?
    ensures !AtMostOneWaiting(GenerateTokenAsWritten(s, req, id, now).value.1)
    ensures GenerateToken(s, req, id, now) == Failure(DuplicateActiveToken)
  {
    var visit := OfPatientAt(req.patientId, req.doctorId, req.date);
    forall i | 0 <= i < |s| && s[i].status == Waiting && visit(s[i])
      ensures exists j :: 0 <= j < i && visit(s[j])
    {
      assert first < i;
      assert visit(s[first]);
    }
    var r := GenerateTokenAsWritten(s, req, id, now);
    var t, after := r.value.0, r.value.1;
    FreshUpsertAppends(s, after, t);
    assert after[waiting] == s[waiting] && after[|s|] == t;
    assert SameVisit(after[waiting], after[|s|]);
  }

  /** With no WAITING token for the visit, either guard issues: the new
      token, WAITING and carrying the fresh id, is appended. */
  lemma AsWrittenIssuesWithoutWaiting(s: Store, req: TokenRequest, id: Id, now: Time)
    requires forall i :: 0 <= i < |s| ==> s[i].id != id
    requires forall i :: 0 <= i < |s| && OfPatientAt(req.patientId, req.doctorId, req.date)(s[i]) ==> s[i].status != Waiting
    ensures GenerateTokenAsWritten(s, req, id, now).Success?
    ensures var r := GenerateTokenAsWritten(s, req, id, now).value;
            r.1 == s + [r.0] && r.0.id == id && r.0.status == Waiting
            && OfPatientAt(req.patientId, req.doctorId, req.date)(r.0)
  {
    var r := GenerateTokenAsWritten(s, req, id, now);
    FreshUpsertAppends(s, r.value.1, r.value.0);
  }

  /** Calling the next token of a store holding one WAITING token calls
      that token. */
  lemma CallNextOfSingleWaiting(t: Token, now: Time)
    requires t.status == Waiting
    ensures CallNextToken([t], t.doctorId, t.date, now).Success?
    ensures CallNextToken([t], t.doctorId, t.date, now).value.1 == [t.(status := Called, actualCallTime := Some(now))]
  {
    assert InPartitionWithStatus(t.doctorId, t.date, Waiting)([t][0]);
  }

  /** The stores of the trace that shows the guard as written failing:
      from an empty store, issue a token under id "a", call it, then issue
      under id "b". A step that fails leaves an empty store. */
  ghost function AfterIssue(req: TokenRequest, now: Time): Store
  {
    var r := GenerateTokenAsWritten([], req, "a", now);
    if r.Failure? then [] else r.value.1
  }

  ghost function AfterCall(req: TokenRequest, now: Time): Store
  {
    var r := CallNextToken(AfterIssue(req, now), req.doctorId, req.date, now);
    if r.Failure? then [] else r.value.1
  }

  ghost function AfterReissue(req: TokenRequest, now: Time): Store
  {
    var r := GenerateTokenAsWritten(AfterCall(req, now), req, "b", now);
    if r.Failure? then [] else r.value.1
  }

  /** The first issuance into an empty store succeeds and stores one
      WAITING token for the visit. */
  lemma IssueStep(req: TokenRequest, now: Time)
    ensures GenerateTokenAsWritten([], req, "a", now).Success?
    ensures var s1 := AfterIssue(req, now);
            |s1| == 1 && s1[0].status == Waiting && s1[0].id == "a"
            && OfPatientAt(req.patientId, req.doctorId, req.date)(s1[0])
  {
    AsWrittenIssuesWithoutWaiting([], req, "a", now);
    assert [] + [GenerateTokenAsWritten([], req, "a", now).value.0]
           == [GenerateTokenAsWritten([], req, "a", now).value.0];
  }

  /** Calling the next token of that store calls the visit's token. */
  lemma CallStep(req: TokenRequest, now: Time)
    ensures CallNextToken(AfterIssue(req, now), req.doctorId, req.date, now).Success?
    ensures var s2 := AfterCall(req, now);
            |s2| == 1 && s2[0].status == Called && s2[0].id == "a"
            && OfPatientAt(req.patientId, req.doctorId, req.date)(s2[0])
  {
    IssueStep(req, now);
    var s1 := AfterIssue(req, now);
    assert s1 == [s1[0]];
    CallNextOfSingleWaiting(s1[0], now);
  }

  /** Issuing again succeeds, since the visit has no WAITING token left, and
      appends a second token for the visit after the CALLED one. */
  lemma ReissueStep(req: TokenRequest, now: Time)
    ensures GenerateTokenAsWritten(AfterCall(req, now), req, "b", now).Success?
    ensures var s3 := AfterReissue(req, now);
            |s3| == 2 && s3[0].id == "a" && s3[1].id == "b"
            && OfPatientAt(req.patientId, req.doctorId, req.date)(s3[0]) && s3[0].status == Called
            && OfPatientAt(req.patientId, req.doctorId, req.date)(s3[1]) && s3[1].status == Waiting
  {
    CallStep(req, now);
    var s2 := AfterCall(req, now);
    AsWrittenIssuesWithoutWaiting(s2, req, "b", now);
  }

  /** The store after the re-issue holds, for the visit, a CALLED token
      first and a WAITING token second, and no token with id "c". */
  lemma ReissuedStoreShowsTheGap(req: TokenRequest, now: Time)
    ensures var s3 := AfterReissue(req, now);
      && (forall i :: 0 <= i < |s3| ==> s3[i].id != "c")
      && 0 < 1 < |s3|
      && OfPatientAt(req.patientId, req.doctorId, req.date)(s3[0]) && s3[0].status != Waiting
      && OfPatientAt(req.patientId, req.doctorId, req.date)(s3[1]) && s3[1].status == Waiting
  {
    ReissueStep(req, now);
    IdsOfTwoAvoidThird(AfterReissue(req, now));
  }

  /** A store of two records under ids "a" and "b" has no record "c". */
  lemma IdsOfTwoAvoidThird(s: seq<Token>)
    requires |s| == 2 && s[0].id == "a" && s[1].id == "b"
    ensures forall i :: 0 <= i < |s| ==> s[i].id != "c"
  {
    assert "a"[0] != "c"[0] && "b"[0] != "c"[0];
    forall i | 0 <= i < |s|
      ensures s[i].id != "c"
    {
      assert i == 0 || i == 1;
    }
  }

  /** From an empty store, the guard as written reaches a store with two
      WAITING tokens for one visit: issue, call it, issue again, issue a
      third time. The corrected guard refuses the third request. */
  lemma AsWrittenTraceFromEmptyStore(req: TokenRequest, now: Time)
    ensures GenerateTokenAsWritten(AfterReissue(req, now), req, "c", now).Success?
    ensures !AtMostOneWaiting(GenerateTokenAsWritten(AfterReissue(req, now), req, "c", now).value.1)
    ensures GenerateToken(AfterReissue(req, now), req, "c", now) == Failure(DuplicateActiveToken)
  {
    ReissuedStoreShowsTheGap(req, now);
    AsWrittenAdmitsSecondWaiting(AfterReissue(req, now), req, "c", now, 0, 1);
  }

  // ---------------------------------------------------------------------
  // Dispatch, snapshot and priority parsing
  // ---------------------------------------------------------------------

  /** When the partition's WAITING numbers are distinct, the called token
      is dispatched strictly before every other WAITING token of the
      partition: the choice does not depend on store order. */
  lemma CalledTokenPrecedesAllOthers(s: Store, doctorId: Id, date: Date, now: Time)
    requires WaitingNumbersDistinct(s, doctorId, date)
    ensures CallNextToken(s, doctorId, date, now).Success? ==>
              exists k :: 0 <= k < |s|
                && CallNextToken(s, doctorId, date, now).value.0 == s[k].(status := Called, actualCallTime := Some(now))
                && forall i :: 0 <= i < |s| && i != k && InPartitionWithStatus(doctorId, date, Waiting)(s[i])
                     ==> DispatchesBefore(s[k], s[i])
  {
    var waiting := InPartitionWithStatus(doctorId, date, Waiting);
    var r := CallNextToken(s, doctorId, date, now);
    if r.Success? {
      var k :| 0 <= k < |s| && waiting(s[k])
               && (forall i :: 0 <= i < |s| && waiting(s[i]) ==> !DispatchesBefore(s[i], s[k]))
               && r.value.0 == s[k].(status := Called, actualCallTime := Some(now));
      forall i | 0 <= i < |s| && i != k && waiting(s[i])
        ensures DispatchesBefore(s[k], s[i])
      {
        assert s[i].tokenNumber != s[k].tokenNumber;
        DispatchOrderIsStrictTotal(s[k], s[i], s[k]);
      }
    }
  }

  /** A WAITING token of the given partition, number and priority. */
  function Queued(base: Token, id: Id, number: nat, priority: TokenPriority): Token
  {
    base.(id := id, tokenNumber := number, priority := priority, status := Waiting)
  }

  /** `t` as `callNextToken` leaves it. */
  function CalledAt(t: Token, now: Time): Token
  {
    t.(status := Called, actualCallTime := Some(now))
  }

  /** The pick facts of the first call: #2 EMERGENCY precedes #1 NORMAL and #3 HIGH. */
  lemma EmergencyFirstPick(base: Token, now: Time)
    ensures var t1, t2, t3 := Queued(base, "1", 1, Normal), Queued(base, "2", 2, Emergency), Queued(base, "3", 3, High);
      var s := [t1, t2, t3];
      && s[0].id != s[1].id && s[1].id != s[2].id && s[0].id != s[2].id
      && InPartitionWithStatus(base.doctorId, base.date, Waiting)(s[1])
      && forall i :: 0 <= i < 3 && i != 1 && InPartitionWithStatus(base.doctorId, base.date, Waiting)(s[i])
           ==> DispatchesBefore(s[1], s[i])
  {
    assert "1"[0] != "2"[0] && "2"[0] != "3"[0] && "1"[0] != "3"[0];
  }

  /** The pick facts of the second call: #3 HIGH precedes #1 NORMAL. */
  lemma HighNextPick(base: Token, now: Time)
    ensures var t1, t2, t3 := Queued(base, "1", 1, Normal), Queued(base, "2", 2, Emergency), Queued(base, "3", 3, High);
      var s := [t1, CalledAt(t2, now), t3];
      && s[0].id != s[1].id && s[1].id != s[2].id && s[0].id != s[2].id
      && InPartitionWithStatus(base.doctorId, base.date, Waiting)(s[2])
      && forall i :: 0 <= i < 3 && i != 2 && InPartitionWithStatus(base.doctorId, base.date, Waiting)(s[i])
           ==> DispatchesBefore(s[2], s[i])
  {
    assert "1"[0] != "2"[0] && "2"[0] != "3"[0] && "1"[0] != "3"[0];
  }

  /** Dispatch of three WAITING tokens issued as #1 NORMAL, #2 EMERGENCY
      and #3 HIGH, in three calls: #2 first ... */
  lemma DispatchCallsEmergencyFirst(base: Token, now: Time)
    ensures var t1, t2, t3 := Queued(base, "1", 1, Normal), Queued(base, "2", 2, Emergency), Queued(base, "3", 3, High);
            CallNextToken([t1, t2, t3], base.doctorId, base.date, now)
            == Success((CalledAt(t2, now), [t1, CalledAt(t2, now), t3]))
  {
    var t1, t2, t3 := Queued(base, "1", 1, Normal), Queued(base, "2", 2, Emergency), Queued(base, "3", 3, High);
    EmergencyFirstPick(base, now);
    CallPicksOfThree(t1, t2, t3, base.doctorId, base.date, now, 1);
  }

  /** ... then #3 ... */
  lemma DispatchCallsHighNext(base: Token, now: Time)
    ensures var t1, t2, t3 := Queued(base, "1", 1, Normal), Queued(base, "2", 2, Emergency), Queued(base, "3", 3, High);
            CallNextToken([t1, CalledAt(t2, now), t3], base.doctorId, base.date, now)
            == Success((CalledAt(t3, now), [t1, CalledAt(t2, now), CalledAt(t3, now)]))
  {
    var t1, t2, t3 := Queued(base, "1", 1, Normal), Queued(base, "2", 2, Emergency), Queued(base, "3", 3, High);
    HighNextPick(base, now);
    CallPicksOfThree(t1, CalledAt(t2, now), t3, base.doctorId, base.date, now, 2);
  }

  /** The pick facts of the last call: #1 is the only WAITING token left. */
  lemma NormalLastPick(base: Token, now: Time)
    ensures var t1, t2, t3 := Queued(base, "1", 1, Normal), Queued(base, "2", 2, Emergency), Queued(base, "3", 3, High);
      var s := [t1, CalledAt(t2, now), CalledAt(t3, now)];
      && s[0].id != s[1].id && s[1].id != s[2].id && s[0].id != s[2].id
      && InPartitionWithStatus(base.doctorId, base.date, Waiting)(s[0])
      && forall i :: 0 <= i < 3 && i != 0 && InPartitionWithStatus(base.doctorId, base.date, Waiting)(s[i])
           ==> DispatchesBefore(s[0], s[i])
  {
    assert "1"[0] != "2"[0] && "2"[0] != "3"[0] && "1"[0] != "3"[0];
  }

  /** ... and #1 last. */
  lemma DispatchCallsNormalLast(base: Token, now: Time)
    ensures var t1, t2, t3 := Queued(base, "1", 1, Normal), Queued(base, "2", 2, Emergency), Queued(base, "3", 3, High);
            CallNextToken([t1, CalledAt(t2, now), CalledAt(t3, now)], base.doctorId, base.date, now)
            == Success((CalledAt(t1, now), [CalledAt(t1, now), CalledAt(t2, now), CalledAt(t3, now)]))
  {
    var t1, t2, t3 := Queued(base, "1", 1, Normal), Queued(base, "2", 2, Emergency), Queued(base, "3", 3, High);
    NormalLastPick(base, now);
    CallPicksOfThree(t1, CalledAt(t2, now), CalledAt(t3, now), base.doctorId, base.date, now, 0);
  }

  /** `CallPicks` for a store of three records with distinct ids. */
  lemma CallPicksOfThree(a: Token, b: Token, c: Token, doctorId: Id, date: Date, now: Time, k: nat)
    requires a.id != b.id && b.id != c.id && a.id != c.id
    requires k < 3 && InPartitionWithStatus(doctorId, date, Waiting)([a, b, c][k])
    requires forall i :: 0 <= i < 3 && i != k && InPartitionWithStatus(doctorId, date, Waiting)([a, b, c][i])
               ==> DispatchesBefore([a, b, c][k], [a, b, c][i])
    ensures CallNextToken([a, b, c], doctorId, date, now)
            == Success((CalledAt([a, b, c][k], now),
                        [if k == 0 then CalledAt(a, now) else a,
                         if k == 1 then CalledAt(b, now) else b,
                         if k == 2 then CalledAt(c, now) else c]))
  {
    var s: Store := [a, b, c];
    CallPicks(s, doctorId, date, now, k);
    UpdateOfThree(a, b, c, k, CalledAt(s[k], now));
  }

  /** Replacing one element of a three-element sequence, written out. */
  lemma UpdateOfThree<T>(a: T, b: T, c: T, k: nat, x: T)
    requires k < 3
    ensures [a, b, c][k := x] == [if k == 0 then x else a, if k == 1 then x else b, if k == 2 then x else c]
  {
  }

  /** If the WAITING token at `k` is dispatched strictly before every other
      WAITING token of the partition, it is the one called. */
  lemma CallPicks(s: Store, doctorId: Id, date: Date, now: Time, k: nat)
    requires k < |s| && InPartitionWithStatus(doctorId, date, Waiting)(s[k])
    requires forall i :: 0 <= i < |s| && i != k && InPartitionWithStatus(doctorId, date, Waiting)(s[i])
               ==> DispatchesBefore(s[k], s[i])
    ensures CallNextToken(s, doctorId, date, now).Success?
    ensures CallNextToken(s, doctorId, date, now).value.0 == s[k].(status := Called, actualCallTime := Some(now))
    ensures CallNextToken(s, doctorId, date, now).value.1 == s[k := s[k].(status := Called, actualCallTime := Some(now))]
  {
    var waiting := InPartitionWithStatus(doctorId, date, Waiting);
    var r := CallNextToken(s, doctorId, date, now);
    var j :| 0 <= j < |s| && waiting(s[j])
             && (forall i :: 0 <= i < |s| && waiting(s[i]) ==> !DispatchesBefore(s[i], s[j]))
             && r.value.0 == s[j].(status := Called, actualCallTime := Some(now))
             && r.value.1 == s[j := r.value.0];
    DispatchOrderIsStrictTotal(s[k], s[j], s[k]);
    assert j == k;
  }

  /** A token of the given partition, number and status. */
  function Ticket(base: Token, id: Id, number: nat, status: TokenStatus): Token
  {
    base.(id := id, tokenNumber := number, status := status)
  }

  /** A partition holding #1 COMPLETED, #2 IN_PROGRESS, #3 WAITING and #4
      WAITING. */
  function SnapshotQueue(base: Token): seq<Token>
  {
    [Ticket(base, "1", 1, Completed), Ticket(base, "2", 2, InProgress),
     Ticket(base, "3", 3, Waiting), Ticket(base, "4", 4, Waiting)]
  }

  lemma SnapshotCurrentToken(base: Token)
    ensures CurrentToken(SnapshotQueue(base), base.doctorId, base.date) == 2
  {
    var s := SnapshotQueue(base);
    assert s[1] in s && InPartitionWithStatus(base.doctorId, base.date, InProgress)(s[1]);
    assert forall t :: t in s && InPartitionWithStatus(base.doctorId, base.date, InProgress)(t) ==> t == s[1];
  }

  lemma SnapshotLastServedToken(base: Token)
    ensures LastServedToken(SnapshotQueue(base), base.doctorId, base.date) == 1
  {
    var s := SnapshotQueue(base);
    assert s[0] in s && InPartitionWithStatus(base.doctorId, base.date, Completed)(s[0]);
    assert forall t :: t in s && InPartitionWithStatus(base.doctorId, base.date, Completed)(t) ==> t == s[0];
  }

  lemma SnapshotWaitingCount(base: Token)
    ensures |Indices(SnapshotQueue(base), InPartitionWithStatus(base.doctorId, base.date, Waiting))| == 2
  {
    assert Indices(SnapshotQueue(base), InPartitionWithStatus(base.doctorId, base.date, Waiting)) == {2, 3};
    assert |{2, 3}| == 2;
  }

  /** That partition reports current token 2, two waiting, an average wait
      of 30 minutes and last served token 1. */
  lemma QueueStatusExample(base: Token)
    ensures GetQueueStatus(SnapshotQueue(base), base.doctorId, base.date)
            == QueueStatus(base.doctorId, base.date, 2, 2, 30, 1)
  {
    SnapshotCurrentToken(base);
    SnapshotLastServedToken(base);
    SnapshotWaitingCount(base);
  }

  /** Each priority's own name, in any letter case, parses back to it. */
  lemma PriorityNamesParseBack(p: TokenPriority, raw: string)
    requires CaseVariantOf(raw, PriorityName(p))
    ensures ParsePriority(Some(raw)) == p
    ensures ParsePriority(Some(PriorityName(p))) == p
  {
    assert CaseVariantOf(PriorityName(p), PriorityName(p));
  }
}
