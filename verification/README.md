# SSH Exam Gate, modelled and verified in Dafny

SSH Exam Gate lets an enrolled person log in over SSH only after passing a
published exam. sshd asks the policy for an `authorized_keys` line; before the
exam is passed that line forces the exam program, afterwards it is the plain key.
Administrators manage people, keys, question banks, tests and publications through
a web console and a command line.

The project models these components and proves what holds for all inputs, all
reachable states and all runs:

- **The exam gate** (`Schema`, `Transactions`, `Effects`, `Queries`, `Commands`, `Database`,
  `Gate`, `GateInvariant`, `GateSafety`, `GateTheorems`, `GateOrigins`, `GateCounts`,
  `GateProgress`, `Undo`, `Bootstrap`, `Startups`). `Transactions` says what each SQLite transaction makes of the
  tables; the class `Database.Tables` updates the tables in place and is proved against it.
  `Effects` reads off what each transaction stores and whose access it changes. `Gate` is a
  protocol of atomic steps: any number of terminal sessions, publishing administrators and
  legacy carry-overs interleave with the administrator's commands, and reads that the program
  makes on separate connections are separate steps. `GateInvariant` is the inductive invariant,
  `GateSafety` shows that every step keeps it, `GateTheorems`, `GateOrigins` and `GateCounts`
  draw the conclusions for every run, and `GateProgress` shows that the steps lead where they
  should. `Bootstrap` is the legacy bootstrap that every start of
  the program runs, `Startups` a series of starts that may stop part way.
- **Quizzes, banks and the terminal** (`Quizzes`, `Banks`, `Tui`): preparation with
  in-place shuffles, 32-bit scoring, editing with rollback, composition of banks,
  the key loop.
- **The schema migrations 1 to 5** (`Migration`): removal of duplicate bindings and
  the collapse of the binding relation into one account per person.
- **The policy and its printer** (`Policy`, `Quoting`, `Keys`): the decision, and the
  two quoting layers read back by two readers, the shell (POSIX.1-2017, Shell Command
  Language, sections 2.2.2, 2.2.3 and 2.3) and sshd (sshd(8), AUTHORIZED_KEYS FILE
  FORMAT).
- **Web cores** (`Throttle`, `ThrottleBound`, `OverlappingLogins`, `OverlapBound`, `Runs`,
  `BankLock`, `Forms`, `Cookies`): the login throttle for serialized and for overlapping calls, the lock
  around banks and tests, form round trips and signed sessions.
- **All together** (`EndToEnd`): a migrated database starts the gate, and the line that a
  pending user gets in any reachable state.

Hash functions, encodings, random draws, row ids and clock values are parameters or
nondeterministic choices. What is assumed of them is spelled out where it is needed:
`Transactions.HexHash` (revisions are 64 hexadecimal digits), `Transactions.NoCollision` (a
source does not collide with one that was published before), `Keys.GoodDigest` (only
non-empty base64 text has a fingerprint, and it has the right shape) and
`Cookies.GoodSigner` (decoding a tag undoes encoding it). The safety results of the gate
need none of them.

Five things that the code might be expected to do are false, and the exact condition is
proved instead:

- The printed option value survives sshd unchanged if and only if no argument holds a
  backslash: the printer doubles backslashes, sshd undoes only `\"`
  (`Policy.PendingLineDecodes`, `Policy.SshdKeepsDoubledBackslash`).
- Deleting a question leaves a valid quiz if and only if the question limit is not equal
  to the number of questions; only the surrounding update refuses it
  (`Banks.DeletionBreaksLimit`).
- The legacy bootstrap of a valid quiz succeeds if and only if a test is active, or there is
  no test and the title has no surrounding white space, or the stored legacy test has the
  title and all settings of the quiz (`Bootstrap.BootstrapSucceedsExactly`). The test's title
  is trimmed when it is created and then compared exactly when it is published, so a first
  start with an untrimmed title fails and leaves its draft behind. From then on a corrected
  quiz is refused unless it has exactly the trimmed title and the settings of the first one
  (`Bootstrap.RetryMustMatchDraft`, `Bootstrap.CorrectedTitleIsRefused`); someone must edit
  or delete the draft.
- Legacy passes survive any number of starts if and only if no start stopped between its
  publication and its carry-over: every later start returns early
  (`Startups.StartsCarryPassesExactly`).
- The throttle's bound of 8k + 6 failed logins in 60k seconds holds if and only if at most one
  login call is in flight at a time (`OverlapBound.SerialBoundNeedsOneCall`): the handler
  releases the throttle while it verifies a password. With at most m calls in flight the
  largest number is k(7 + m(m + 1) / 2) + 7, and one less for m = 1; it is never exceeded
  (`OverlappingLogins.OverlappingLoginsAreThrottled`) and it is reached for every m and k
  (`OverlapBound.BoundIsReached`). For serialized calls the same is shown of the class
  `Throttle.LoginThrottle` (`Throttle.LoginsAreThrottled`, `ThrottleBound.BoundIsReached`).

`dafny verify dfyconfig.toml` checks the whole project.

## Model

| member | source | states |
|---|---|---|
| `GateTheorems.AttemptsAreFaithful` | src/bin/ssh-exam-tui.rs:134-217 | In every interleaving each recorded attempt belongs to exactly one publication and is the score of complete, legal answers to a preparation of exactly its stored quiz: the total is that quiz's size and it passed exactly when it meets that quiz's threshold. |
| `GateTheorems.AttemptsAreBounded` | src/db.rs:481-538 | In every reachable state nobody has more attempts at a publication than its limit, at most one of them passed, and no attempt follows a passing one. |
| `GateTheorems.PassesAreEarnedOrCarried` | src/db.rs:481-538 | In every reachable state a pass row exists exactly for a passing attempt or a carried legacy pass, and never for both. |
| `GateTheorems.PolicyIsUnambiguous` | src/db.rs:383-422 | In every reachable state all foreign keys and unique indexes hold, so the policy join has at most one row and its order and limit never choose. |
| `GateTheorems.PublicationsAreAppendOnly` | src/db.rs:732-784 | Over every run, whatever is executed, a stored publication stays with the same exam and quiz. |
| `GateTheorems.PublishingIsContentAddressed` | src/db.rs:732-784 | Equal content reuses its row, changed content gets one new row with a revision that no publication has, and content of a test deleted between read and transaction changes nothing; unless revisions collide. |
| `GateTheorems.NewRevisionNeedsNewPass` | src/db.rs:749-784 | After changed content is published nobody holds a pass or an attempt for the active revision. |
| `GateTheorems.ActivePointerIsSound` | migrations/0004_tests_and_publications.sql:20-23 | Once set, the active pointer stays set over every run and names an existing publication of an existing test. |
| `GateTheorems.DeletingTestErasesNothing` | src/db.rs:696-730 | Deleting a test removes at most the test itself: only tests that nobody could sit can be deleted. |
| `GateTheorems.DeletingUndoesCreatingTest` | src/db.rs:594-730 | Deleting a test that was just created restores the whole database. |
| `GateTheorems.OtherExamsLeaveAlone` | src/db.rs:351-538 | Over every run that touches an exam only by reading or by editing, publishing, activating and deleting tests, while people sit, reset and carry over other exams, the keys, the people up to legacy passes, and all attempts and passes at that exam stay. |
| `GateTheorems.ReactivationRestoresVerdicts` | src/db.rs:870-896 | After publishing another exam, having people sit it, resetting and carrying over there, activating the earlier publication restores its old verdict and identity for every account and fingerprint. |
| `GateTheorems.AnswerOfPublishing` | src/db.rs:732-784 | The second read with which publishing answers always finds a published test, whatever runs before it, and finds the exam just published whatever sessions, recordings, edits, resets, deletions and carry-overs come in between, unless another publishing transaction or an activation does. |
| `GateTheorems.AnswerOfActivating` | src/db.rs:870-896 | The same holds of the second read with which activation answers: unless a publishing transaction or another activation comes in between, it finds the activated publication. |
| `GateTheorems.PublishingKeepsPeople` | src/db.rs:732-784 | No run of edits, publications, activations and deletions of tests changes people, keys, attempts or passes. |
| `GateTheorems.OpeningAgreesWithRecording` | src/bin/ssh-exam-tui.rs:134-217 | On an unchanged database the exam opens exactly if a complete attempt would be accepted, as the next one; otherwise recording would be refused for the pass or for exhausted attempts. |
| `GateTheorems.RecordingClosesSession` | src/bin/ssh-exam-tui.rs:198-217 | Only the input that ends an exam adds an attempt; it adds exactly one and closes its session, and a closed session stays closed. |
| `GateTheorems.SessionRecordsAtMostOnce` | src/bin/ssh-exam-tui.rs:141-196 | Over every run a session records at most one attempt, and none once it is closed. |
| `GateOrigins.AttemptsComeFromLogins` | src/bin/ssh-exam-tui.rs:127-217 | In every run from a starting state, behind each recorded attempt lie three earlier steps of its session, in this order: it connected with an account and a key, these resolved to the person and the exam of the attempt, and the session opened that exam while it was the active one. |
| `GateCounts.AcceptedRecordingsAreStored` | src/bin/ssh-exam-tui.rs:198-235 | Over every run without a reset or deletion of the person, the stored attempts at an exam grow by exactly the recordings that were answered Ok. |
| `GateCounts.AcceptedRecordingsAreLimited` | src/db.rs:481-538 | Over every such run the recordings of a person that are answered Ok, with those stored before, are at most the attempts that the publication allows. |
| `GateCounts.FinalEnterDecidesVerdict` | src/bin/ssh-exam-tui.rs:198-235 | The accepted Enter that ends an exam at the active publication sets the verdict of its person to whether the marks reach the threshold of the stored quiz. |
| `GateProgress.EligibleCanSit` | src/bin/ssh-exam-tui.rs:127-235 | Whoever may sit the active exam can: after connecting, resolving, identifying and opening, some key sequence has any complete list of legal answers recorded as the next attempt with the score of these answers, and nothing else changes. |
| `GateProgress.InputsRecord` | src/bin/ssh-exam-tui.rs:162-235 | What the key loop of a terminal submits is exactly what its session records. |
| `GateProgress.PublishingActivates` | src/db.rs:732-784 | Reading and publishing a valid quiz that matches its test makes its revision the active exam. |
| `GateProgress.CarryOverCompletes` | src/db.rs:912-926 | A carry-over that nothing interrupts carries every legacy pass to the active exam and clears them. |
| `GateSafety.StepKeepsInv` | src/db.rs:204-927 | Every atomic step of sessions, administrators, publishers and carry-overs keeps the invariant. |
| `GateSafety.RunKeepsInv` | src/bin/ssh-exam-tui.rs:127-235 | Every run keeps the invariant. |
| `GateSafety.FreshIsInv` | migrations/0004_tests_and_publications.sql:1-37 | A migrated database without tests satisfies the invariant. |
| `GateSafety.SubmissionIsBacked` | src/bin/ssh-exam-tui.rs:198-217 | A completed exam carries the score of its answers on the quiz of its publication, and that publication's attempt limit. |
| `GateSafety.RecordKeepsInv` | src/db.rs:481-538 | Recording a completed exam, accepted or refused, keeps the invariant. |
| `GateSafety.OpenExamOk` | src/bin/ssh-exam-tui.rs:134-162 | An exam that opens runs on a preparation of the quiz that the identity names. |
| `GateSafety.SittingsNeedPublication` | src/db.rs:696-714 | Nobody has attempts at an exam that was never published. |
| `GateSafety.CommitKeepsHistory` | src/db.rs:757-781 | Publishing leaves all history valid and all earlier publications in place. |
| `GateSafety.AdminStepKeepsInv` | src/db.rs:204-381 | Every administrator's transaction keeps the invariant. |
| `GateInvariant.RecordKeepsHistory` | src/db.rs:489-537 | An accepted attempt keeps the history valid: backed by its quiz, within the limit, nothing after a pass, pass rows exact. |
| `GateInvariant.RecordKeepsPassingLast` | src/db.rs:499-506 | No attempt is accepted after a passing one. |
| `GateInvariant.RemovalKeepsHistory` | src/db.rs:284-290 | Removing attempts and passes keeps the history valid as long as a pass and the attempts behind it go together. |
| `GateInvariant.DeletePersonRemovesWhole` | migrations/0004_tests_and_publications.sql:25-31 | The cascade from a person removes passes and attempts together. |
| `GateInvariant.DeleteTestRemovesWhole` | src/db.rs:715-726 | Deleting a test removes passes and attempts together. |
| `GateInvariant.ResetRemovesWhole` | src/db.rs:363-378 | A reset removes the pass and the attempts behind it together. |
| `GateInvariant.CarryKeepsHistory` | src/db.rs:914-922 | The legacy carry-over adds only pass rows that no attempt earned. |
| `Commands.CommandKeepsConstraints` | migrations/0001_init.sql:1-50 | Every administrator's command, successful or refused, keeps the foreign keys and unique indexes. |
| `Commands.CommandKeepsExams` | src/db.rs:594-650 | No command changes a publication or unsets the active pointer, and only valid tests are stored. |
| `Commands.PublishKeepsConstraints` | src/db.rs:757-781 | Publishing keeps the foreign keys and unique indexes, also when the test is gone by then. |
| `Commands.RecordKeepsConstraints` | src/db.rs:489-537 | Recording an attempt, accepted or refused, keeps the foreign keys and unique indexes. |
| `Commands.CarryKeepsConstraints` | src/db.rs:914-926 | Both statements of the legacy carry-over keep the foreign keys and unique indexes. |
| `Commands.ConflictIsExact` | src/db.rs:230-250 | An account is refused as taken exactly when assigning it would break the unique index. |
| `Undo.DeletingUndoesCreating` | src/db.rs:204-290 | Deleting a person who was just created restores the whole database. |
| `Undo.DeletingLeavesOthers` | src/db.rs:284-290 | Deleting a person removes exactly that person's keys, attempts and passes; the view of everybody else is unchanged. |
| `Undo.ResettingReopens` | src/db.rs:351-381 | After a reset the next attempt counts as the first, unless it is malformed or the person is disabled. |
| `Undo.ResettingUndoesRecording` | src/db.rs:351-538 | Resetting after the only attempt restores the whole database. |
| `Effects.AcceptedAttemptIsStored` | src/db.rs:515-535 | An accepted attempt is stored with every field of the input, passed or not; the sittings at that exam gain exactly this row, the answer is their number, and all other attempts stay. |
| `Effects.AcceptedPassIsStored` | src/db.rs:526-535 | The pass row appears exactly with an accepted passing attempt; all other passes and all other tables stay. |
| `Effects.AttemptIsAcceptedWhen` | src/db.rs:481-538 | An attempt is accepted exactly if it is well formed and the person is there, is enabled, has no pass and has attempts left; a refused one changes nothing. |
| `Effects.RecordingDecidesVerdict` | src/db.rs:481-538 | An accepted attempt at the active exam changes the verdict of its person exactly if it passed, and of nobody else. |
| `Effects.CreatedPerson` | src/db.rs:204-228 | Exactly when a person is created; the entry in the list has the trimmed name, the account, is enabled and has no keys, attempts or pass, and nobody gains or loses access. |
| `Effects.AccountMovesAccess` | src/db.rs:230-250 | A new account moves the access of exactly this person's keys to it. |
| `Effects.UpdateMovesAccess` | src/db.rs:252-274 | The same when the name changes, which is stored trimmed; the legacy pass stays. |
| `Effects.DisablingPersonEndsAccess` | src/db.rs:276-282 | Disabling a person ends the access of exactly this person's keys. |
| `Effects.EnablingPersonGivesAccess` | src/db.rs:276-282 | Enabling a person gives access to exactly the enabled keys of this person in addition, and undoes the disabling of an enabled one. |
| `Effects.DisablingKeyEndsAccess` | src/db.rs:338-344 | Disabling a key ends its access alone, enabling it gives it back, and undoes the disabling of an enabled one. |
| `Effects.AddedKeyOpens` | src/db.rs:292-336 | Exactly when a key is registered; it is stored as parsed and opens exactly its owner's account in addition, and removing it restores the database. |
| `Effects.RemovedKeyOpensNothing` | src/db.rs:346-349 | Removing a key ends its access alone. |
| `Effects.DeletedPersonOpensNothing` | src/db.rs:284-290 | Deleting a person ends the access of exactly this person's keys. |
| `Effects.KeysAreListedOnce` | src/db.rs:540-585 | The list of people shows every key under its owner and nowhere else, as it is stored. |
| `Effects.CreatedTestIsSaved` | src/db.rs:594-622 | Exactly when a test is created; it reads back with its title trimmed, and no other test and no other table changes. |
| `Effects.UpdatedTestIsSaved` | src/db.rs:624-650 | Exactly when a test is replaced; it reads back with its title trimmed, and no other test and no other table changes. |
| `Effects.DeletedTestIsGone` | src/db.rs:696-730 | Exactly when a test is deleted; it cannot be read any more, and all other tests can. |
| `Effects.InvalidTestsCannotBeRead` | src/db.rs:652-684 | Reading a test is refused as invalid exactly for an invalid id or when any stored test is invalid, and as missing exactly otherwise when there is none. |
| `Effects.ResetClears` | src/db.rs:351-381 | A reset clears the legacy pass of the person and leaves everything else of all people, keys, tests and publications as it was. |
| `Effects.ResetClearsExam` | src/db.rs:363-378 | A reset removes the pass and all attempts of the person at the active exam, and no other pass or attempt. |
| `Effects.QuizIsPublishableWhen` | src/db.rs:732-748 | A quiz can be published for a test exactly if it is valid and has the title and every setting of the test; the source then holds the quiz and the banks of the test. |
| `Effects.ActivatedWhen` | src/db.rs:870-893 | Exactly the publications of the test itself can be activated, and the activated one is active. |
| `Effects.CarriedPassesKeepTheirTime` | src/db.rs:914-926 | The carry-over gives exactly the holders of a legacy pass a pass of the same time, unless they have one; present passes keep their time. |
| `Effects.PersonRefusals` | src/db.rs:204-274 | Exactly why creating a person, changing one or assigning an account is refused: malformed input first, then a missing person, then a taken account. |
| `Queries.PolicyJoinIsUnique` | migrations/0005_direct_accounts_and_test_options.sql:27-29 | The unique indexes leave at most one row in the policy join and at most one owner of an account. |
| `Queries.PolicyMeans` | src/db.rs:383-449 | Read off the tables: access resolves exactly when a test is active and an enabled key with the fingerprint belongs to an enabled person with the account; the record is that key and its owner with the active exam, and the verdict is whether the owner has a pass for it. |
| `Queries.PublishedTestMeans` | src/db.rs:786-823 | The published test is the active publication, or an error exactly if its id, revision or quiz is not valid. |
| `Queries.ViewsAgree` | src/db.rs:540-585 | The administrator's list, the policy and the session's identity agree on person, name, verdict, time of the pass and attempt count. |
| `Database.Tables.constructor` | src/db.rs:159-202 | An empty database satisfies the constraints. The constraints are kept. |
| `Database.Tables.InsertPerson` | src/db.rs:204-228 | In place: a valid, unassigned account is stored with the trimmed name; otherwise nothing changes. The constraints are kept. |
| `Database.Tables.ChangePersonRow` | src/db.rs:252-274 | In place: name and account change, everything else of the person stays; an unknown person or taken account changes nothing. The constraints are kept. |
| `Database.Tables.AssignAccountRow` | src/db.rs:230-250 | In place: the account changes; an unknown person or taken account changes nothing. The constraints are kept. |
| `Database.Tables.SetEnabled` | src/db.rs:276-282 | In place: the flag of an existing person changes. The constraints are kept. |
| `Database.Tables.DeletePersonRow` | src/db.rs:284-290 | In place: the person and everything that cascades go. The constraints are kept. |
| `Database.Tables.InsertKey` | src/db.rs:292-336 | In place: a parsed key with a new fingerprint is stored, enabled, for an existing person. The constraints are kept. |
| `Database.Tables.EnableKeyRow` | src/db.rs:338-344 | In place: the flag of an existing key changes. The constraints are kept. |
| `Database.Tables.RemoveKeyRow` | src/db.rs:346-349 | In place: an existing key goes. The constraints are kept. |
| `Database.Tables.ResetExamRows` | src/db.rs:351-381 | In place: legacy pass, pass and attempts at the active exam go. The constraints are kept. |
| `Database.Tables.InsertAttempt` | src/db.rs:481-538 | In place: the checks in their order, then the attempt, and the pass exactly for a passing attempt; the result is the attempt's number. The constraints are kept. |
| `Database.Tables.InsertTest` | src/db.rs:594-622 | In place: a valid test with a new id is stored with its trimmed title. The constraints are kept. |
| `Database.Tables.ChangeTestRow` | src/db.rs:624-650 | In place: an existing test is replaced by a valid one with the same id. The constraints are kept. |
| `Database.Tables.DeleteTestRow` | src/db.rs:696-730 | In place: the three deletions, rolled back if there was no such test; an unpublished test goes with its attempts and passes, a published or unknown one changes nothing. The constraints are kept. |
| `Database.Tables.PublishSource` | src/db.rs:757-784 | In place: the row of the revision is reused or inserted and made active; the insertion is rolled back if the test is gone. The constraints are kept. |
| `Database.Tables.ActivateRow` | src/db.rs:870-896 | In place: the pointer moves to a publication of the given test, or nothing changes. The constraints are kept. |
| `Database.Tables.CarryLegacyPasses` | src/db.rs:914-922 | One statement: legacy passes become pass rows unless one is there. The constraints are kept. |
| `Database.Tables.ClearPassedAt` | src/db.rs:923-926 | One statement: all legacy passes are cleared. The constraints are kept. |
| `Quizzes.Shuffle` | src/quiz.rs:308-328 | The in-place shuffle rearranges the array and loses nothing. |
| `Quizzes.PrepareQuestion` | src/quiz.rs:314-334 | A shown question has the same choices in some order and its correct index names the correct text. |
| `Quizzes.Prepare` | src/quiz.rs:308-342 | Preparation yields a rearranged selection of as many questions as the limit asks for, or all. |
| `Quizzes.PreparedSelection` | src/quiz.rs:308-342 | The asked questions are a sub-multiset of the quiz of exactly the limited size, all of them without a limit. |
| `Quizzes.PreparedShape` | src/quiz.rs:254-342 | A valid quiz prepares to 1 to 200 questions with 2 to 20 choices and a legal correct index. |
| `Quizzes.ScoreIsExact` | src/quiz.rs:643-662 | For a valid quiz no 32-bit operation wraps or divides by zero, the score is the exact count and floor percentage, and passing is both percent >= threshold and the cross-multiplied test. |
| `Quizzes.PassingIsMonotone` | src/quiz.rs:643-662 | More correct answers never turn a pass into a failure; all correct passes, none correct fails. |
| `Quizzes.ChoiceTextDecidesMark` | src/quiz.rs:314-334 | Choosing a text on a shown question gets the mark that the same text gets on the stored question. |
| `Quizzes.MarksAreKnown` | src/quiz.rs:643-650 | The marks of a respondent who answers by text are the number of asked questions the respondent knows. |
| `Quizzes.KnownIgnoresOrder` | src/quiz.rs:308-312 | How many questions a respondent knows depends on the multiset of questions only. |
| `Quizzes.ScoreIgnoresShuffles` | src/quiz.rs:296-342 | Without a limit any two preparations give a respondent who answers by text the same score. |
| `Quizzes.ScoreUnderLimit` | src/quiz.rs:308-342 | With a limit the score lies between what the limit leaves of the unknown questions and what the respondent knows. |
| `Banks.EditIsStoredWhen` | src/quiz.rs:199-252 | Exactly when each kind of edit of a valid bank is stored. |
| `Banks.DeletionBreaksLimit` | src/quiz.rs:243-252 | Deleting alone breaks a valid quiz exactly when the limit equals the question count. |
| `Banks.StoredEditIs` | src/quiz.rs:199-252 | What is stored, question by question: settings change four fields and nothing else; a new question comes last; a replacement changes one position; a deletion keeps the questions before it and moves those after it up by one. |
| `Banks.DeletingUndoesAdding` | src/quiz.rs:222-252 | Deleting the question that was just added restores the stored bank. |
| `Banks.ReplacingBackRestores` | src/quiz.rs:231-241 | Replacing a question and then replacing it back restores the stored bank. |
| `Banks.EditsKeepBankValid` | src/quiz.rs:199-205 | Through every sequence of edits the stored bank stays valid and keeps its limit and shuffle settings. |
| `Banks.QuizDocument.UpdateSettings` | src/quiz.rs:207-220 | In place: the settings change if the result is valid, otherwise all three are restored. |
| `Banks.QuizDocument.AddQuestion` | src/quiz.rs:222-229 | In place: the question is appended if the result is valid, otherwise taken back. |
| `Banks.QuizDocument.EditQuestion` | src/quiz.rs:231-241 | In place: the question is replaced if it exists and the result is valid, otherwise restored. |
| `Banks.QuizDocument.DeleteQuestion` | src/quiz.rs:243-252 | In place: an existing question that is not the last one goes; nothing is validated. |
| `Banks.BankFile.Update` | src/quiz.rs:199-205 | The stored bank is replaced exactly by an edit that succeeds and validates, and is unchanged on every failure. |
| `Banks.QuestionsAreValid` | src/quiz.rs:417-454 | The concatenated questions of loadable banks are valid, and there is at least one. |
| `Banks.EnvironmentStep` | src/quiz.rs:429-436 | One step of the environment fold computes the common environment, or General. |
| `Banks.Gather` | src/quiz.rs:428-438 | The loop succeeds exactly for distinct, valid, loadable banks and then yields their questions in order and their common environment. |
| `Banks.Compose` | src/quiz.rs:417-454 | Composition succeeds exactly for distinct, valid, loadable banks within the limits; its result is valid and is the composition that the laws below describe. |
| `Banks.QuestionsInOrder` | src/quiz.rs:428-438 | Each question of each selected bank stands in the composition behind all questions of the banks before it, in its own order, and there are no others. |
| `Banks.EnvironmentIsShared` | src/quiz.rs:429-436 | The composition has an environment other than General exactly if every selected bank has it. |
| `BankLock.CompositionIsPublishable` | src/web.rs:1530-1548 | The composition of a stored test has the title and every setting of that test, so publishing it is never refused for a mismatch. |
| `Banks.EnvironmentIgnoresOrder` | src/quiz.rs:429-436 | The environment of a composition does not depend on the order of the banks. |
| `Tui.HandleKeepsProgress` | src/bin/ssh-exam-tui.rs:162-217 | Each event keeps the selection in range and the question index equal to the number of answers, or ends the exam; it is submitted exactly by Enter on the last question and left exactly by a quit key. |
| `Tui.DriveIsSafe` | src/bin/ssh-exam-tui.rs:162-196 | For every key sequence: submitted exactly when Enter comes once per question before any quit key, with complete legal answers and their score; left without a submission exactly when a quit key comes first. |
| `Tui.KeysMoveSelection` | src/bin/ssh-exam-tui.rs:176-192 | Down and j select the next choice or stay on the last, Up and k the previous one or stay on the first, a digit the choice with that number if there is one; every other key leaves the selection alone. |
| `Tui.KeystrokesAreSubmitted` | src/bin/ssh-exam-tui.rs:162-217 | Some presses of Down and then Enter, once per question, submit exactly the choices so reached, with their score. |
| `Tui.EveryAnswerCanBeGiven` | src/bin/ssh-exam-tui.rs:162-217 | Every complete list of legal answers is submitted by some key sequence. |
| `Tui.ExamApp.constructor` | src/bin/ssh-exam-tui.rs:103-113 | The exam starts at the first question without answers. |
| `Tui.ExamApp.SubmitAnswer` | src/bin/ssh-exam-tui.rs:198-235 | In place: the selected answer is stored; the last one is scored and handed to the database, once, and there is a result exactly if the database accepts it. |
| `Tui.ExamApp.Run` | src/bin/ssh-exam-tui.rs:162-196 | The event loop hands over at most one submission, exactly the one that the key sequence determines, and ends with its score exactly if the database accepts it. |
| `Keys.ParseOfAuthorizedKey` | src/keys.rs:14-35 | Parsing a printed key gives back its type, blob and fingerprint. |
| `Keys.RegisteredKeyRoundTrip` | src/keys.rs:14-35 | The stored fields of any accepted line print to a line that parses back to them, up to the comment. |
| `Keys.AcceptedBlobIsPlain` | src/keys.rs:14-66 | An accepted key has a valid type, a non-empty blob without white space, and the fingerprint of that blob. |
| `Policy.EvaluateMeans` | src/policy.rs:27-52 | Read off the tables: the decision is Passed exactly if a key with this type, blob and fingerprint and its owner with this account are enabled and the owner has a pass for the active revision; Pending, or unprintable, exactly if only the pass is missing. |
| `Policy.EvaluateErrs` | src/policy.rs:27-52 | Consistent input ends in a database error exactly for a malformed account name, or when a key opens the account but the active test id or revision is malformed. |
| `Policy.RenderFailsOnControl` | src/policy.rs:54-108 | Rendering fails exactly for a pending record with NUL, CR or LF in a value. |
| `Policy.PendingLineDecodes` | src/policy.rs:54-108 | Read back as an option list, the pending line holds exactly restrict, pty and a forced command; the shell reads that command as exactly the intended arguments for a symmetric reader, and for sshd exactly if no argument holds a backslash; the rest parses to the registered key. |
| `Policy.SshdKeepsDoubledBackslash` | src/policy.rs:80-91 | With one backslash in the path of sudo, sshd lets the shell run the path with two. |
| `Quoting.CommandIsRead` | src/policy.rs:58-77 | The shell reads a printed command back as exactly its arguments. |
| `Quoting.SingleQuotedBody` | src/policy.rs:100-108 | Inside the printed quotes the shell reads every character of the value literally. |
| `Quoting.TwoPassesEscape` | src/policy.rs:80-91 | The two replacement passes are one escaping of backslashes and quotes: the second never touches what the first wrote. |
| `Quoting.ValueIsRead` | src/policy.rs:80-91 | The reader of a quoted option value gets the text back, sshd with backslashes doubled. |
| `Quoting.QuotedFieldIsScanned` | src/policy.rs:80-91 | The scan for the end of the options field does not stop inside the quoted value. |
| `Quoting.PendingLineIsRead` | src/policy.rs:54-91 | The line splits into the key and an option list of exactly restrict, pty and the forced command, as the reader unescapes it. |
| `Quoting.SshdCommandIsRead` | src/policy.rs:54-108 | Through sshd and shell each argument arrives with its backslashes doubled, so unchanged exactly if there is none. |
| `Migration.OrderOfRows` | migrations/0003_unified_access.sql:26-29 | The order of duplicate rows is total and transitive. |
| `Migration.ScopeHasFirst` | migrations/0003_unified_access.sql:20-31 | Every scope has a first row, and it is enabled if any row of the scope is. |
| `Migration.DeduplicationKeepsGrants` | migrations/0003_unified_access.sql:14-41 | Removing duplicates keeps exactly the enabled (person, key scope, account) relation and exactly the scopes. |
| `Migration.OneRowPerScope` | migrations/0003_unified_access.sql:40-41 | After duplicates are removed there is one row per scope, so the unique index can be built. |
| `Migration.AssignsSoleHolder` | migrations/0005_direct_accounts_and_test_options.sql:3-23 | The update gives a person an account exactly if it is the person's only enabled account and nobody else has it enabled. |
| `Migration.AssignedAccountsAreUnique` | migrations/0005_direct_accounts_and_test_options.sql:27-29 | After the update no account has two owners, so the unique index can be built. |
| `Migration.FirstMigration` | migrations/0001_init.sql:1-50 | The first script creates an empty version 1 database. |
| `Migration.MigrationStep` | migrations/0004_tests_and_publications.sql:48-60 | Scripts 2 to 4 succeed on a database of the version before and keep people, keys, every field of the attempts and every enabled account. |
| `Migration.FifthMigration` | migrations/0005_direct_accounts_and_test_options.sql:1-36 | The fifth script succeeds on every version 4 database and leaves one that satisfies all constraints of version 5; every test keeps its columns and gets no limit and both shuffles. |
| `Migration.MigrationAssignsSoleAccounts` | src/db.rs:159-202 | From any version 0 to 4 the migration succeeds, keeps names, keys and every field of the attempts, and gives a person an account exactly if the person was its sole holder. |
| `Migration.InitializeIsIdempotent` | src/db.rs:159-202 | Initializing a second time changes nothing. |
| `Migration.MigratedHasNoExams` | migrations/0004_tests_and_publications.sql:1-37 | A database of version 3 or earlier migrates to one without tests whose attempts belong to no exam. |
| `Migration.SchemaFile.Initialize` | src/db.rs:159-202 | The migration loop in one transaction: all missing scripts, or no change at all. |
| `Throttle.LoginThrottle.constructor` | src/web.rs:258-263 | The throttle starts open. |
| `Throttle.LoginThrottle.CheckBlocked` | src/web.rs:266-276 | In place: refuses during a block, otherwise opens a new window when the old one is over. |
| `Throttle.LoginThrottle.Record` | src/web.rs:278-293 | In place: a success resets everything; a failure is counted in its window, and the eighth blocks. |
| `Throttle.LoginThrottle.Serve` | src/web.rs:700-733 | One serialized login call: check, verify, record. |
| `Throttle.LoginsAreThrottled` | src/web.rs:265-294 | Over every sequence of login calls, in any stretch without a success at most 8k + 6 passwords fail in any period of 60k seconds, and a call that is not refused finds fewer than eight failures counted. |
| `Throttle.FailuresAreThrottled` | src/web.rs:265-294 | From a new throttle at most 8k + 6 of any sequence of failing calls are verified in any period of 60k seconds. |
| `Throttle.FailingIsWindowed` | src/web.rs:265-294 | Failures fall into windows at least 60 seconds apart with at most eight each, and a full window blocks for 60 seconds. |
| `Throttle.FailuresAreSpread` | src/web.rs:265-294 | Any 8k + 7 failures take at least 60k seconds. |
| `Throttle.UnblockedHasRoom` | src/web.rs:266-276 | After a check that does not block, fewer than eight failures are counted. |
| `Throttle.StretchIsFailing` | src/web.rs:278-293 | Between successes the throttle behaves like a new one that sees only failures. |
| `ThrottleBound.BoundIsReached` | src/web.rs:265-294 | For every k some sequence of calls with wrong passwords has exactly 8k + 6 of them verified in a period of 60k seconds: the serialized bound is tight. |
| `ThrottleBound.ClockConditionsMatter` | src/web.rs:270-292 | At clock value 0 nothing is ever refused, and at the largest clock value a full throttle does not block. |
| `OverlappingLogins.OverlappingLoginsAreThrottled` | src/web.rs:700-733 | Check and record are two steps here and record with the time of the check. With at most m calls in flight, however they overlap and however long they take, in any stretch without a success at most k(7 + m(m + 1) / 2) + 7 passwords are tried in any period of 60k seconds, and one less for m = 1: 8k + 6. |
| `OverlappingLogins.StepKeepsInv` | src/web.rs:265-294 | Each check and each failure keeps the budget of its minute: until the eighth failure a trial needs a failure or a call in flight, afterwards each straggler from before the minute reopens the throttle at most once, and one window may open in the minute. |
| `OverlapBound.BoundIsReached` | src/web.rs:700-733 | For every m and k of at least 1 some orderly run without success tries exactly k(7 + m(m + 1) / 2) + 7 passwords in 60k seconds with at most m calls in flight, and one less for m = 1: no smaller bound holds. |
| `OverlapBound.SerialBoundNeedsOneCall` | src/web.rs:700-733 | For every k of at least 1 the bound of serialized calls, 8k + 6 passwords in every period of 60k seconds of every stretch without a success, holds if and only if at most one call is in flight at a time. |
| `OverlapBound.OverlapIsUnbounded` | src/web.rs:700-733 | With n calls in flight n passwords can be tried within one second: without a limit on the calls in flight no bound holds. |
| `BankLock.SavedTestsKeepTheirBanks` | src/web.rs:1348-1548 | Under every interleaving of the handlers every bank of a saved test exists and loads, and no publication of a saved test fails for a missing bank. |
| `BankLock.StepKeepsInv` | src/web.rs:1520-1548 | Every step of every handler keeps what the handlers inside the lock rely on. |
| `BankLock.DropKeepsInv` | src/quiz.rs:512-521 | Deleting a bank after the check inside the lock leaves no saved test without it. |
| `BankLock.TestsChangeOnRequest` | src/web.rs:1444-1490 | A saved test changes only by its deletion or by a handler that saves it: a new one never replaces a saved one, an edit keeps the id, and the title is stored trimmed. |
| `BankLock.BanksChangeOnRequest` | src/quiz.rs:409-521 | A bank changes only by a handler that imports it under a new id, edits it, or drops it while no saved test uses it. |
| `BankLock.SuccessMeansDone` | src/web.rs:1444-1548 | A handler that ends with success has released the lock and done exactly what was requested. |
| `Forms.BankOptionsForTest` | src/web.rs:2327-2352 | The form lists the selected existing banks first in saved order, then the others; positions count up and exactly the first part is checked. |
| `Forms.FieldNameRoundTrip` | templates/test.html:11 | The name of a check box gives back its position. |
| `Forms.SortIsStrict` | src/web.rs:1600-1624 | Sorting by position yields a strictly increasing list of the same boxes. |
| `Forms.UnchangedFormKeepsBanks` | src/web.rs:1600-1624 | Saving an unchanged form gives the saved bank order restricted to existing banks, in whatever order the fields are visited. |
| `Forms.TextFieldIsRead` | src/web.rs:1600-1624 | In a form without check boxes, ids separated by commas and line breaks, with white space around them, are read as exactly these ids in order. |
| `Forms.UnchangedFormKeepsTest` | src/web.rs:1600-1648 | Saving an unchanged form gives the same test, up to banks that no longer exist. |
| `Forms.FormIgnoresPadding` | src/web.rs:1625-1648 | White space around the id, the title and the question limit of a test form makes no difference. |
| `Forms.QuestionFormRoundTrip` | src/web.rs:1732-1747 | A question shown in the form and parsed back keeps its choice count, correct index and validity; prompt and choices are equal up to trimming, for both line endings. |
| `Cookies.MacInputsAreDistinct` | src/web.rs:2445-2455 | The MAC inputs of two domain and value pairs coincide only if the pairs are equal. |
| `Cookies.DomainsDoNotMix` | src/web.rs:2445-2466 | A value signed for one domain verifies in that domain only. |
| `Cookies.SignedValueVerifies` | src/web.rs:2445-2466 | A signed value verifies. |
| `Cookies.SessionRoundTrip` | src/web.rs:2412-2479 | A session encoded, sent among other cookies, found, verified and parsed is the same session exactly if it has not expired and its base64url nonce has at least 16 characters; otherwise there is none. |
| `Cookies.PayloadIsAcceptedWhen` | src/web.rs:2418-2429 | A payload is accepted as a session exactly if it is a 64-bit number, a colon and a nonce, the number is not past and the nonce has at least 16 characters. |
| `Cookies.SessionCookieFits` | src/web.rs:2468-2479 | The session cookie is a possible part of a cookie header: no semicolon, and trimming leaves it alone. |
| `EndToEnd.MigratedStartsTheGate` | src/db.rs:159-202 | A migrated database of version 3 or earlier is a starting state of the gate. |
| `EndToEnd.VersionFourStartsTheGate` | migrations/0005_direct_accounts_and_test_options.sql:1-36 | The fifth script keeps the invariant of a version 4 database whose exams and history are valid, so it is a starting state of the gate, too. |
| `Bootstrap.BootstrapSucceedsExactly` | src/db.rs:898-927 | In every state that satisfies the invariant the bootstrap of a valid quiz succeeds exactly if a test is active, or there is no test and the title is trimmed, or the stored legacy test has the title and settings of the quiz; with a test active it changes nothing, and on failure nothing but a new draft. |
| `Bootstrap.BootstrapCarriesPasses` | src/db.rs:912-926 | When it publishes, a person holds a pass for the active exam exactly with a legacy pass or an earlier one, and legacy passes are cleared. |
| `Bootstrap.BootstrapPublishesQuiz` | src/db.rs:912-912 | When it publishes, the published quiz is the given one, unless its revision collides. |
| `Bootstrap.FirstBootstrapIsExact` | src/db.rs:898-927 | On a database without tests it succeeds exactly if the title is trimmed; then exactly the people with a legacy pass hold a pass for the active exam, otherwise only the draft is stored. |
| `Bootstrap.RetryMustMatchDraft` | src/db.rs:898-912 | After a first start that failed, the next one succeeds exactly if the corrected quiz has the trimmed title and all settings of the first. |
| `Bootstrap.CorrectedTitleIsRefused` | src/db.rs:736-746 | When only the title was corrected, the next start succeeds exactly if it is the trimmed first one; any other trimmed title is refused. |
| `Startups.StartsCarryPassesExactly` | src/db.rs:898-927 | Over any number of starts, each of which may stop after any statement of the bootstrap: once a test is active, a person holds a pass for it exactly with a pass from before, or with a legacy pass unless some start stopped between its publication and its carry-over; then every later start returns early. |
| `Startups.UnstoppedStartIsBootstrap` | src/db.rs:898-927 | A start that is not stopped leaves the database as the bootstrap leaves it. |
| `EndToEnd.RunKeepsKeysOk` | src/db.rs:292-336 | Over every run each stored key has a valid type and the fingerprint of its blob. |
| `EndToEnd.AccessIsExact` | src/policy.rs:27-78 | In every reachable state, for printable configuration, the decision is exact: Passed, Pending or Deny, never an error. |
| `EndToEnd.FinalEnterDecidesLogin` | src/policy.rs:27-52 | In every reachable state a pending user who completes the active exam, with the attempt accepted, is Passed at the next login with the same key if the marks reach the threshold, and Pending again if not. |
| `EndToEnd.PendingUsersGetTheirExam` | src/policy.rs:54-108 | In every reachable state whose starting keys were accepted ones, a pending user's line accepts exactly the registered key and, without backslashes in the configuration, runs exactly the exam command for that account and key. |

## Left out

- Database.Tables.PublishSource: returns the publication that the transaction chose. The second read with which `publish_test` answers is `GateTheorems.AnswerOfPublishing`.
- Database.Tables.ActivateRow: the same for `activate_publication` and `GateTheorems.AnswerOfActivating`.
- Bootstrap.BootstrapSucceedsExactly: nothing else runs between the steps of the bootstrap. The gate instead lets the carry-over run at any time and any number of times, which covers the places where the program calls it.
- EndToEnd.VersionFourStartsTheGate: that a version 4 database has valid exams is an assumption; the program that wrote it is not part of this model.
- Queries.ViewsAgree: the three views agree on one state of the database, with no step in between. `Queries.View` is one entry of the list of people; the order of lists of people, tests and publications is not modelled.
- Throttle.LoginThrottle.Serve: one call at a time; overlapping calls are the subject of `OverlappingLogins`, which takes the check and the record as two steps.
- Throttle.FailuresAreThrottled: one call at a time, as in `Throttle.LoginThrottle.Serve`.
- Throttle.LoginsAreThrottled: one call at a time, as in `Throttle.LoginThrottle.Serve`. The clock does not run backwards, is at least 1, and stays 60 below the largest 64-bit value; `ThrottleBound.ClockConditionsMatter` shows why.
- OverlappingLogins.OverlappingLoginsAreThrottled: the clock has also left its first minute.
- OverlapBound.BoundIsReached: the schedule begins at second 100, so k minutes have to fit below the largest 64-bit value; the same for `OverlapBound.SerialBoundNeedsOneCall`.
- Startups.StartsCarryPassesExactly: nothing but the starts runs; a stop is the loss of the process, and every statement that ran before it has taken effect.
- Cookies.SessionRoundTrip: no earlier cookie of the header has the session cookie's name; the first one with that name is the one that is read.
- BankLock.SavedTestsKeepTheirBanks: the command line is not one of the handlers, because its commands do not take the lock.
- Quoting.CommandIsRead: the shell reader accepts literal words only; a text with an unquoted operator, expansion, pattern, comment or assignment has no reading, and the printed commands hold none.
- Quoting.PendingLineIsRead: the option reader knows flags and settings with a quoted value, in lower case as the policy prints them.
- SQLite itself: SQL, write-ahead logging, busy timeouts, row-id overflow. Tables are maps with the declared keys and constraints, an IMMEDIATE transaction is one step, and a failed transaction changes nothing.
- Row ids are inputs: people, keys and publications get an unused id, attempts one above every present id. A deleted person's id can be used again; every claim is about person ids. The unique index of bindings uses -1 for a missing key, and the model assumes that -1 is no key's row id.
- Creation, update, publication and completion times.
- `record_attempt` does not check that the revision is still active, and neither does the model: a session that began before a change of revision records for the old one.
- Unix account lookup: whether an account exists on the host is the input `onHost`.
- JSON, the question files and their replacement, permissions, symbolic links, temporary files: a bank is a stored quiz that is replaced at once or not at all.
- The random draws of `prepare` are a relation over all outcomes; nothing is said about how likely they are.
- Command paths are text; the refusal of a path that is not UTF-8 is left out.
- Password hashing, HTTP routing, redirects, response headers, language selection, page texts, terminal drawing, configuration loading, the installer and service scripts.
