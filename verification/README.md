# Smart appointment: queue tokens and patient registry in Dafny

This project models two services of the smart-appointment system and proves
properties of them.

**The queue-token engine** (`queue-service`) issues numbered tickets per
(doctor, date) partition. It dispatches the waiting tickets by priority rank,
then by number. It moves tickets through their statuses and recomputes the
queue places of waiting tickets. It also reports a snapshot of a partition,
lists a patient's tickets newest first, and renders a status line.
- The Redis-backed token repository is a sequence of records in iteration
  order. Ids are distinct (`TokenRepository.Store`).
- Every derived query is a filter, sort or count over that sequence.
- Time is a parameter `now` in minutes, and a date is a day number. The id of
  a new ticket is a parameter standing for the random UUID.

**The patient registry** (`patient-service`) covers registration, lookup by
the generated business key `patientId`, and update.
- The patient table is a sequence of rows in table order.
- The Bean Validation constraints of the registration request are a set of
  violations, and a `WellFormed` predicate is proved equivalent to that set
  being empty. The request path (`@Valid`, then the service) is modelled too.
- These are parameters of the model:
  - the password encoder (`encode`);
  - the `@Email` check (`isEmail`);
  - the names of the `Gender` enum constants (`genders`);
  - the UUID text (`uuid`);
  - today's date (`today`).

Files:
- `wrappers.dfy`: `Option` and `Result`.
- `text.dfy`: ASCII case mapping.
- `seqs.dfy`: filter, counts and a stable sort.
- `queue_token.dfy`: the token record and the two enums.
- `token_repository.dfy`: the token store and its queries.
- `queue_service.dfy`: the queue operations.
- `queue_properties.dfy`: cross-operation properties and worked examples.
- `patient_request.dfy`: the request and its constraints.
- `patient_service.dfy`: the patient operations.
- `patient_properties.dfy`: the registry's properties.

Facts about the code that the model keeps:
- `startConsultation` and `completeToken` set the status from any prior
  status. Their only failure is an unknown id (QueueService.java:143-159).
- `getTokenStatus` recomputes the position of any token it looks up,
  whatever its status (QueueService.java:63-70).
- `currentToken` is the first IN_PROGRESS token in ascending number order,
  which is the smallest such number (QueueService.java:77-85).
  `QueueService.CurrentToken` states that.
- `tokenNumber` is declared as a string in the record but used as an integer
  everywhere, so it is a `nat` here.

## Model

| member | source | states |
|---|---|---|
| QueueToken.StatusesEnumerated | queue-service/src/main/java/com/example/queue_service/model/QueueToken.java:41-48 | There are exactly six statuses, all pairwise distinct, and every status value is one of them. |
| QueueToken.Rank | queue-service/src/main/java/com/example/queue_service/model/QueueToken.java:49-60 | `getValue` returns a rank between 1 and 4. |
| QueueToken.RankOrdersPriorities | queue-service/src/main/java/com/example/queue_service/model/QueueToken.java:49-53 | Ranks strictly increase from EMERGENCY through HIGH and NORMAL to LOW, and distinct priorities never share a rank. |
| QueueToken.DispatchOrderIsStrictTotal | queue-service/src/main/java/com/example/queue_service/service/QueueService.java:127-130 | The dispatch comparator (rank, then token number) is irreflexive, transitive and asymmetric. It orders any two tokens that differ in priority or number. |
| TokenRepository.FindById | queue-service/src/main/java/com/example/queue_service/repository/QueueTokenRepository.java:11 | `findById` is empty exactly when no record has the id. Otherwise it returns the record stored under that id. |
| TokenRepository.Save | queue-service/src/main/java/com/example/queue_service/repository/QueueTokenRepository.java:11 | `save` is an upsert: afterwards `findById` returns the saved record and every other id finds what it found before. A taken id is replaced in place; a fresh id is appended. |
| TokenRepository.FindByDoctorAndDateOrdered | queue-service/src/main/java/com/example/queue_service/repository/QueueTokenRepository.java:12 | The result holds exactly the partition's records, each as often as in the store, in ascending token-number order. |
| TokenRepository.FindByDoctorAndDateAndStatus | queue-service/src/main/java/com/example/queue_service/repository/QueueTokenRepository.java:13-14 | A record is in the result exactly when it matches doctor, date and status. The result's length is the number of store indices holding such a record. |
| TokenRepository.FindByPatientAndDoctorAndDate | queue-service/src/main/java/com/example/queue_service/repository/QueueTokenRepository.java:15-16 | At most one record is returned, and it matches all three keys. The result is empty exactly when no record matches. |
| TokenRepository.CountByDoctorAndDate | queue-service/src/main/java/com/example/queue_service/repository/QueueTokenRepository.java:17 | The count equals the number of store indices holding a record of the partition. |
| Text.UpperMatchesCaseVariant | queue-service/src/main/java/com/example/queue_service/service/QueueService.java:204 | For an upper-case word, `toUpperCase()` yields the word exactly when the input spells it up to letter case. |
| QueueService.ParsePriority | queue-service/src/main/java/com/example/queue_service/service/QueueService.java:202-208 | A case-insensitive match of a priority name gives that priority. Any other priority comes only from such a match. A missing string gives NORMAL, and parsing never fails. |
| QueueProperties.PriorityNamesParseBack | queue-service/src/main/java/com/example/queue_service/service/QueueService.java:202-208 | Every priority's name, in any letter case, parses back to that priority. |
| QueueService.CountWaitingIsIndexCount | queue-service/src/main/java/com/example/queue_service/service/QueueService.java:166-171 | The WAITING count behind `calculatePosition` is the number of WAITING records of the partition. |
| QueueService.UpdateTokenPosition | queue-service/src/main/java/com/example/queue_service/service/QueueService.java:173-188 | Only position, wait and estimated time change. The position is at least 1, the wait is position × 15 and the estimated time is `now` plus the wait. |
| QueueService.PositionCountsEarlierWaiting | queue-service/src/main/java/com/example/queue_service/service/QueueService.java:174-181 | The refreshed position is 1 plus the number of WAITING records of the same partition with a smaller number. |
| QueueService.PositionIsSingleFilter | queue-service/src/main/java/com/example/queue_service/service/QueueService.java:174-181 | The two-stage filter (WAITING list, then smaller numbers) counts the same records as one combined test. |
| QueueService.PositionWithinWaitingCount | queue-service/src/main/java/com/example/queue_service/service/QueueService.java:174-181 | A stored WAITING token never gets a position beyond its partition's WAITING count. |
| QueueService.PositionsFollowNumbers | queue-service/src/main/java/com/example/queue_service/service/QueueService.java:174-181 | Within a partition, a WAITING token with a smaller number gets a strictly smaller position. |
| QueueService.PositionReadsOnlyKeys | queue-service/src/main/java/com/example/queue_service/service/QueueService.java:174-181 | Stores that agree on ids, partitions, statuses and numbers give every token the same position. |
| QueueService.RecomputeStep | queue-service/src/main/java/com/example/queue_service/service/QueueService.java:196-199 | One loop iteration, which refreshes and saves the next entry of the WAITING snapshot, extends the recomputed part of the store by that entry. |
| QueueService.RecomputeDone | queue-service/src/main/java/com/example/queue_service/service/QueueService.java:191-200 | Once the whole snapshot is processed, every WAITING token of the partition holds its recomputed position and everything else is untouched. |
| QueueService.UpdateQueuePositions | queue-service/src/main/java/com/example/queue_service/service/QueueService.java:191-200 | The loop leaves each WAITING token of the partition refreshed against the store as it was before the loop, and every other record unchanged. |
| QueueService.NewTokenIsIssuedFor | queue-service/src/main/java/com/example/queue_service/service/QueueService.java:36-55 | A new token carries the request's keys and status WAITING. Its number is the partition count + 1 and its position is the WAITING count + 1. Its wait is position × 15, no call time is set, and its priority is the parsed one. |
| QueueService.SaveUpserts | queue-service/src/main/java/com/example/queue_service/service/QueueService.java:57 | Saving the new token replaces the record with its id, or appends it when the id is fresh. |
| QueueService.FirstRecordOfVisit | queue-service/src/main/java/com/example/queue_service/service/QueueService.java:25-29 | The visit lookup returns the record at the first index matching (patient, doctor, date). When it returns something, that index exists. |
| QueueService.GenerateTokenAsWritten | queue-service/src/main/java/com/example/queue_service/service/QueueService.java:24-61 | Issuance as written fails with a duplicate error exactly when the visit's first record is WAITING. Otherwise it issues a token as described above and upserts it. |
| QueueService.GenerateToken | queue-service/src/main/java/com/example/queue_service/service/QueueService.java:24-61 | Issuance with the corrected guard fails exactly when some record of the visit is WAITING. Otherwise it issues and upserts as described above. |
| QueueService.GetTokenStatus | queue-service/src/main/java/com/example/queue_service/service/QueueService.java:63-70 | An unknown id fails with not-found. Otherwise the token is refreshed whatever its status, and saved in place. |
| QueueService.FirstMinimal | queue-service/src/main/java/com/example/queue_service/service/QueueService.java:126-132 | No entry of the WAITING list dispatches before the chosen one. Every earlier entry dispatches after it, as a stable sort followed by `findFirst` picks. |
| QueueService.CallNextToken | queue-service/src/main/java/com/example/queue_service/service/QueueService.java:117-141 | It fails with an empty-queue error exactly when the partition has no WAITING token. Otherwise it picks a WAITING token that no other WAITING token dispatches before. That token becomes CALLED at `now`, and only that record changes. |
| QueueProperties.CalledTokenPrecedesAllOthers | queue-service/src/main/java/com/example/queue_service/service/QueueService.java:126-136 | When the partition's WAITING numbers are distinct, the called token dispatches strictly before every other WAITING token. |
| QueueProperties.CallPicks | queue-service/src/main/java/com/example/queue_service/service/QueueService.java:126-136 | A WAITING token that dispatches strictly before all other WAITING tokens of its partition is the one called. |
| QueueProperties.CallNextOfSingleWaiting | queue-service/src/main/java/com/example/queue_service/service/QueueService.java:117-136 | With a single WAITING token, that token is called. |
| QueueProperties.DispatchCallsEmergencyFirst | queue-service/src/main/java/com/example/queue_service/service/QueueService.java:117-136 | With #1 NORMAL, #2 EMERGENCY and #3 HIGH all WAITING, the first call takes #2. |
| QueueProperties.DispatchCallsHighNext | queue-service/src/main/java/com/example/queue_service/service/QueueService.java:117-136 | In that queue, the second call takes #3. |
| QueueProperties.DispatchCallsNormalLast | queue-service/src/main/java/com/example/queue_service/service/QueueService.java:117-136 | In that queue, the third call takes #1. |
| QueueService.StartConsultation | queue-service/src/main/java/com/example/queue_service/service/QueueService.java:143-149 | An unknown id fails with not-found. Otherwise that token becomes IN_PROGRESS from any status and no other record changes. |
| QueueService.RecomputationKeepsWaitingSet | queue-service/src/main/java/com/example/queue_service/service/QueueService.java:191-200 | A recomputation changes neither which records are WAITING in the partition nor their count. |
| QueueService.RecomputedPositionsArePermutation | queue-service/src/main/java/com/example/queue_service/service/QueueService.java:191-200 | After a recomputation with distinct WAITING numbers, the WAITING positions are pairwise distinct and lie in 1..M, where M is the WAITING count. |
| QueueService.CompletionOutcome | queue-service/src/main/java/com/example/queue_service/service/QueueService.java:151-159 | After completion and recomputation the store keeps its size and the token is COMPLETED. With distinct WAITING numbers, the WAITING positions form a permutation of 1..M. |
| QueueService.CompleteToken | queue-service/src/main/java/com/example/queue_service/service/QueueService.java:151-159 | An unknown id fails with not-found. Otherwise the token becomes COMPLETED from any status and its partition's WAITING positions are recomputed. With distinct WAITING numbers, they form a permutation of 1..M. |
| QueueService.FirstWithStatusIsSmallest | queue-service/src/main/java/com/example/queue_service/service/QueueService.java:77-85 | In a list in ascending number order, the first record with a status has the smallest number among the records with that status. |
| QueueService.CurrentToken | queue-service/src/main/java/com/example/queue_service/service/QueueService.java:77-85 | `currentToken` is 0 when the partition has no IN_PROGRESS token. Otherwise it is the number of an IN_PROGRESS token, and no IN_PROGRESS number is smaller. |
| QueueService.LastServedToken | queue-service/src/main/java/com/example/queue_service/service/QueueService.java:87-91 | `lastServedToken` is 0 when the partition has no COMPLETED token. Otherwise it is the number of a COMPLETED token, and no COMPLETED number is larger. |
| QueueService.GetQueueStatus | queue-service/src/main/java/com/example/queue_service/service/QueueService.java:72-101 | The snapshot echoes doctor and date. `totalWaiting` is the WAITING count and the average wait is that count × 15. It also holds the current and last-served tokens above. |
| QueueProperties.QueueStatusExample | queue-service/src/main/java/com/example/queue_service/service/QueueService.java:72-101 | A partition holding #1 COMPLETED, #2 IN_PROGRESS, #3 WAITING and #4 WAITING reports current 2, two waiting, a 30-minute wait and last served 1. |
| QueueProperties.SnapshotCurrentToken | queue-service/src/main/java/com/example/queue_service/service/QueueService.java:81-85 | In that partition the current token is 2. |
| QueueProperties.SnapshotLastServedToken | queue-service/src/main/java/com/example/queue_service/service/QueueService.java:87-91 | In that partition the last served token is 1. |
| QueueProperties.SnapshotWaitingCount | queue-service/src/main/java/com/example/queue_service/service/QueueService.java:97 | In that partition two tokens are WAITING. |
| QueueService.GetPatientTokens | queue-service/src/main/java/com/example/queue_service/service/QueueService.java:103-115 | The listing holds exactly the patient's tokens, each once per record, with issue times non-increasing. |
| QueueService.GenerateStatusMessage | queue-service/src/main/java/com/example/queue_service/service/QueueService.java:227-243 | The message carries a queue place exactly for WAITING, and then it carries the token's position and wait. NO_SHOW gets "Unknown status". |
| QueueService.StatusMessagesTellStatusesApart | queue-service/src/main/java/com/example/queue_service/service/QueueService.java:227-243 | Two tokens with the same message have the same status: NO_SHOW's "Unknown status" text differs from the other five messages. |
| QueueProperties.AppendKeepsNumbering | queue-service/src/main/java/com/example/queue_service/service/QueueService.java:161-164 | Appending a token that carries its partition's count + 1 keeps the partition numbered 1, 2, ..., n in store order. |
| QueueProperties.FreshUpsertAppends | queue-service/src/main/java/com/example/queue_service/service/QueueService.java:57 | Saving under a fresh id appends the token. |
| QueueProperties.IssuanceKeepsNumbering | queue-service/src/main/java/com/example/queue_service/service/QueueService.java:36 | Issuing under a fresh id keeps every partition numbered 1..n with no duplicates. |
| QueueProperties.GenerateTokenKeepsNumbering | queue-service/src/main/java/com/example/queue_service/service/QueueService.java:24-61 | A successful issuance with a fresh id keeps the store well numbered. |
| QueueProperties.GenerateTokenAsWrittenKeepsNumbering | queue-service/src/main/java/com/example/queue_service/service/QueueService.java:24-61 | Issuance as written, with its weaker guard, also keeps the store well numbered when the id is fresh. |
| QueueProperties.SamePlacesKeepNumbering | queue-service/src/main/java/com/example/queue_service/service/QueueService.java:161-164 | Numbering reads only partitions and numbers, so an operation that keeps them in place keeps the store well numbered. |
| QueueProperties.CallNextKeepsNumbering | queue-service/src/main/java/com/example/queue_service/service/QueueService.java:134-136 | Calling the next token keeps the store well numbered. |
| QueueProperties.StartConsultationKeepsNumbering | queue-service/src/main/java/com/example/queue_service/service/QueueService.java:147-148 | Starting a consultation keeps the store well numbered. |
| QueueProperties.GetTokenStatusKeepsNumbering | queue-service/src/main/java/com/example/queue_service/service/QueueService.java:63-70 | Looking a token up, which refreshes and saves it, keeps the store well numbered. |
| QueueProperties.CompletionKeepsNumbering | queue-service/src/main/java/com/example/queue_service/service/QueueService.java:151-159 | Completing a token and recomputing its partition keeps the store well numbered. |
| QueueProperties.NumberedMeansDistinct | queue-service/src/main/java/com/example/queue_service/service/QueueService.java:161-164 | In a numbered partition, numbers strictly increase in store order, so none repeats. |
| QueueProperties.NumberedWithinCount | queue-service/src/main/java/com/example/queue_service/service/QueueService.java:161-164 | In a numbered partition, every number is at most the partition's size. |
| QueueProperties.CompletionYieldsPermutation | queue-service/src/main/java/com/example/queue_service/service/QueueService.java:151-159 | On a well-numbered store, completion always leaves the partition's WAITING positions as a permutation of 1..M. |
| QueueProperties.IssuedPositionMatchesRecomputation | queue-service/src/main/java/com/example/queue_service/service/QueueService.java:37-38 | On a well-numbered store, the position given at issuance is the one a later recomputation gives the new token. |
| QueueProperties.GenerateTokenKeepsOneWaiting | queue-service/src/main/java/com/example/queue_service/service/QueueService.java:31-34 | The corrected issuance keeps at most one WAITING token per (patient, doctor, date). |
| QueueProperties.AsWrittenAdmitsSecondWaiting | queue-service/src/main/java/com/example/queue_service/service/QueueService.java:25-34 | Suppose a visit's first record is not WAITING but a later record of that visit is. Then issuance as written succeeds and leaves two WAITING tokens for the visit, while the corrected guard refuses. |
| QueueProperties.AsWrittenIssuesWithoutWaiting | queue-service/src/main/java/com/example/queue_service/service/QueueService.java:31-57 | With no WAITING record for the visit and a fresh id, issuance as written appends a WAITING token for the visit. |
| QueueProperties.AsWrittenTraceFromEmptyStore | queue-service/src/main/java/com/example/queue_service/service/QueueService.java:24-61 | From an empty store, the sequence issue, call, issue, issue (as written) ends with two WAITING tokens for one visit. The corrected guard refuses the last request. |
| PatientRequest.TrimKeepsSomething | patient-service/src/main/java/com/example/patient_service/dto/PatientRegistrationRequest.java:14-16 | `String.trim()` leaves something exactly when the string holds a character above the space character. |
| PatientRequest.NotBlankMeansVisible | patient-service/src/main/java/com/example/patient_service/dto/PatientRegistrationRequest.java:26-27 | `@NotBlank` holds exactly when the value is present with a character above the space character. |
| PatientRequest.PhonePatternMatchesShape | patient-service/src/main/java/com/example/patient_service/dto/PatientRegistrationRequest.java:30 | The matcher for `^\+?[1-9]\d{1,14}$` accepts exactly an optional '+' followed by 2 to 15 digits, the first not '0'. |
| PatientRequest.Violations | patient-service/src/main/java/com/example/patient_service/dto/PatientRegistrationRequest.java:14-39 | The reported set holds exactly the constraints the request breaks. |
| PatientRequest.NameConstraintsIffWellFormed | patient-service/src/main/java/com/example/patient_service/dto/PatientRegistrationRequest.java:14-20 | A name passes `@NotBlank` and `@Size(2, 50)` exactly when it is present, 2 to 50 characters long and visible. |
| PatientRequest.NamesIffWellFormed | patient-service/src/main/java/com/example/patient_service/dto/PatientRegistrationRequest.java:14-20 | The first-name constraints hold exactly when the first name is well formed, and likewise for the last name. |
| PatientRequest.PhoneConstraintsIffShape | patient-service/src/main/java/com/example/patient_service/dto/PatientRegistrationRequest.java:29-31 | A phone number passes `@NotBlank` and `@Pattern` exactly when it is present and has the phone shape. |
| PatientRequest.GenderAndPhoneIffWellFormed | patient-service/src/main/java/com/example/patient_service/dto/PatientRegistrationRequest.java:26-31 | The gender constraint holds exactly when a visible gender is given. The phone constraints hold exactly when the phone has the phone shape. |
| PatientRequest.EmailIffWellFormed | patient-service/src/main/java/com/example/patient_service/dto/PatientRegistrationRequest.java:33-35 | The email constraints hold exactly when the email is present, visible and accepted by the email check. |
| PatientRequest.PasswordIffWellFormed | patient-service/src/main/java/com/example/patient_service/dto/PatientRegistrationRequest.java:37-39 | The password constraints hold exactly when the password is present, at least 8 characters long and visible. |
| PatientRequest.NoneBrokenIffWellFormed | patient-service/src/main/java/com/example/patient_service/dto/PatientRegistrationRequest.java:14-39 | The thirteen constraints hold together exactly when the request is well formed. |
| PatientRequest.NoBreaksIffWellFormed | patient-service/src/main/java/com/example/patient_service/dto/PatientRegistrationRequest.java:14-39 | No constraint is broken exactly when the request is well formed. |
| PatientRequest.NoViolationsIffWellFormed | patient-service/src/main/java/com/example/patient_service/dto/PatientRegistrationRequest.java:14-44 | A request raises no violation exactly when it is well formed. Address, blood group, history and allergies are unconstrained. |
| PatientService.IndexOfPatientId | patient-service/src/main/java/com/example/patient_service/repository/PatientRepository.java:11 | The lookup is empty exactly when no row has the key. Otherwise it gives the first row with the key. |
| PatientService.NewPatientId | patient-service/src/main/java/com/example/patient_service/service/PatientService.java:36 | The generated id has 10 characters: "PT" followed by the first eight characters of the UUID text, upper-cased. |
| PatientProperties.PatientIdIsUpperHex | patient-service/src/main/java/com/example/patient_service/service/PatientService.java:36 | For UUID text starting with lower-case hexadecimal digits, the id is "PT" and eight upper-case hexadecimal digits that spell the same characters up to case. |
| PatientService.RegisterPatient | patient-service/src/main/java/com/example/patient_service/service/PatientService.java:27-62 | Each failure happens exactly when its own check fails and every earlier check passed: email first, then phone, missing gender, unknown gender, missing password. On success one row is appended. It is ACTIVE, has the upper-cased gender (a valid constant) and the encoded password, and has an address exactly when the request does. |
| PatientProperties.RegistrationCopiesRequest | patient-service/src/main/java/com/example/patient_service/service/PatientService.java:35-48 | The new row has the generated id and carries the request's names, birth date, phone, email, address, blood group, history and allergies unchanged. |
| PatientProperties.RegistrationKeepsEmailsUnique | patient-service/src/main/java/com/example/patient_service/service/PatientService.java:28-30 | A successful registration keeps emails unique across the table. |
| PatientProperties.RegistrationKeepsPhonesUnique | patient-service/src/main/java/com/example/patient_service/service/PatientService.java:31-33 | A successful registration keeps phone numbers unique across the table. |
| PatientProperties.RegistrationKeepsPatientIdsUnique | patient-service/src/main/java/com/example/patient_service/service/PatientService.java:36 | When the generated id is not taken, a successful registration keeps patient ids unique. |
| PatientProperties.AppendKeepsUnique | patient-service/src/main/java/com/example/patient_service/service/PatientService.java:60 | Appending a row whose key no row has keeps that key unique. |
| PatientProperties.RegisteredPatientIsFound | patient-service/src/main/java/com/example/patient_service/service/PatientService.java:60-66 | When the generated id was not taken, looking it up after registration finds the new row. |
| PatientProperties.ValidRegistrationFailures | patient-service/src/main/java/com/example/patient_service/service/PatientService.java:27-43 | A well-formed request can fail only on a taken email, a taken phone or an unknown gender. |
| PatientService.GetPatientById | patient-service/src/main/java/com/example/patient_service/service/PatientService.java:64-68 | An unknown key fails with not-found, and that is the only failure. Otherwise it returns a row with the key. When keys are unique, it returns the row holding the key. |
| PatientService.UpdatePatient | patient-service/src/main/java/com/example/patient_service/service/PatientService.java:71-83 | An unknown key fails with not-found. Otherwise the table keeps its size, and the saved row is the looked-up row with the five detail fields taken from the request. |
| PatientProperties.UpdateChangesOnlyDetails | patient-service/src/main/java/com/example/patient_service/service/PatientService.java:71-81 | Only the first row with the key changes. In it, names, blood group, history and allergies take the request's values. Id, birth date, gender, phone, email, password, address and status stay. |
| PatientProperties.UpdateKeepsUnique | patient-service/src/main/java/com/example/patient_service/service/PatientService.java:75-81 | An update keeps emails, phone numbers and patient ids unique. |
| PatientProperties.UpdatedPatientIsFound | patient-service/src/main/java/com/example/patient_service/service/PatientService.java:72-81 | Looking the key up after an update finds the updated row. |
| PatientService.SubmitRegistration | patient-service/src/main/java/com/example/patient_service/controller/PatientController.java:19-24 | A request that is not well formed is refused with all its violations before the service runs. A well-formed request gets exactly the service's outcome. |
| PatientService.SubmitUpdate | patient-service/src/main/java/com/example/patient_service/controller/PatientController.java:32-38 | A request that is not well formed is refused before the update runs. A well-formed one gets exactly the update's outcome. |

## Left out

- The response projections `mapToResponse` (QueueService.java:210-225 and PatientService.java:85-110) and the DTO records are left out. They copy fields and add nothing to check.
- The exact `String.format` text of the WAITING message is not modelled. It becomes a `QueuePlace(position, wait)` value.
- Logging is not modelled.
- Wall-clock time is not modelled: `now` is a parameter in minutes and a date is a day number. One `now` serves a whole operation, where the code reads the clock twice in `generateToken`.
- The random UUID of a token is not modelled: it is an id parameter. The numbering and uniqueness lemmas require it to be fresh.
- The password encoder, the `@Email` validator and the `Patient.Gender` enum are not part of this model. They are the parameters `encode`, `isEmail` and `genders`.
- Concurrency is not modelled, including the read-then-write race on token numbers. Every operation runs alone on one store.
- QueueService.GenerateToken: the request fields patient, doctor, department and date are always present. `QueueController.generateQueue` binds the body without `@Valid` (QueueController.java:22), so null fields can reach `generateToken`; a token saved with a null patient id makes every later `getPatientTokens` throw a null dereference at QueueService.java:106. The same holds for QueueService.GenerateTokenAsWritten.
- The API gateway, the controllers' HTTP binding and the Spring bootstrap are not part of this model. The `@Valid` step of the patient controller is the one exception.
- Transactions and storage failures are not modelled. A failed operation returns no store, so nothing is persisted.
- The JPA surrogate key `id` of a patient row is not modelled.
- QueueService.NextTokenNumber: does not model the 32-bit `int` wrap-around of `count.intValue() + 1`, because a partition never holds 2^31 tokens.
- QueueService.UpdateTokenPosition, QueueService.NewToken, QueueService.GetQueueStatus: do not model `int` overflow of the products × 15 (QueueService.java:38, :98 and :182), for the same reason.
- PatientRequest.Violations: `@Size` counts characters, not UTF-16 code units as Java's `String.length()` does.
- Text.Upper: upper-cases ASCII letters only, not the full Unicode mapping of `String.toUpperCase()`.
- TokenRepository.FindByPatientAndDoctorAndDate: returns the first match in store order. The Redis repository returns whichever match the index intersection yields first, an order nothing in the code fixes.
- PatientService.GetPatientById: returns the first row with the key. When several rows share a key, Spring Data would instead throw. `PatientProperties.RegistrationKeepsPatientIdsUnique` states when keys stay unique.
- PatientService.RegisterPatient: does not check that the generated patient id is fresh, as the service does not. The lemmas about the new row require freshness.

## Findings

| source | as written | input that shows it | evidently intended | confidence | as-written member | corrected member |
|---|---|---|---|---|---|---|
| queue-service/src/main/java/com/example/queue_service/service/QueueService.java:25-34 | The duplicate guard looks up one record for (patient, doctor, date) and refuses only when that record is WAITING. | Start from an empty store. Issue a token for a visit, call it (CALLED), then issue again (WAITING). The lookup still returns the CALLED record, so a third issuance for the visit adds a second WAITING token. | Refuse issuance whenever the visit has any WAITING token, keeping at most one WAITING token per visit. | not executed; medium (which match the Redis lookup returns depends on index iteration order) | QueueService.GenerateTokenAsWritten | QueueService.GenerateToken |

`QueueProperties.AsWrittenTraceFromEmptyStore` exhibits the gap for the
as-written guard. `QueueProperties.GenerateTokenKeepsOneWaiting` proves the
intended rule for the corrected guard.
