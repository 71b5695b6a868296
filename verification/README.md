# KeystrokeMFA keystroke-dynamics engine in Dafny

This project models the core of KeystrokeMFA, a web login that checks the
password and also checks how the password is typed. The timing check is the
second factor.

- **Keystroke analysis** (`KeystrokeAnalysis`). Raw press and release times
  become two feature sequences: hold durations and flight times. The five
  enrolment samples are averaged element-wise into a template. Each channel of
  an attempt is scored against the template with the mean of
  `1 - |a - b| / max(a, b)`. The attempt is accepted when the mean of the two
  channel scores reaches 0.75.
- **Key-event recorder** (`KeystrokeInput`). A buffer of timed key presses sits
  behind each password field. Releasing Enter hands the last snapshot of that
  buffer to the form.
- **Enrolment form** (`Registration`). The password is typed five times. The
  first entry becomes the reference. A mismatch starts over. The fifth match
  produces the user record.
- **User store** (`AuthStore`) and **session store** (`SessionStore`). These
  are reducers over immutable records. The session store also has the
  30-minute idle check.

`AuthTypes` holds the record shapes `KeystrokeData`, `KeystrokePattern` and
`UserData`. `Options` holds the optional value that stands for the source's
`null` and `undefined`.

Times in the analysis and the recorder are `real`. JavaScript numbers are not
modelled, so sums and quotients are exact. `Date.now()` in the session store is
an `int` count of milliseconds. Each clock read (`performance.now()`,
`Date.now()`) is a `now` parameter.

Each loop of `keystrokeAnalysis.ts` is written as a method that follows the loop
step by step:
- `CalculateKeystrokeMetrics`
- `CalculateAveragePattern`
- `CalculateSimilarity`

Each method is proved equal to a pointwise reference function (`Metrics`,
`AveragePattern`, `Similarity`). The state machines and the lemmas use the
reference functions.

Behaviour of the code that a reader might not expect, and that the model keeps:

- **Undefined ratios.** When `max(a, b)` is 0 at some index, or both sequences
  are empty, the code divides anyway and gets NaN or an infinity; there is no
  fallback score. The model makes these cases preconditions (`Comparable`,
  `Averageable`). One consequence: with a one-key password, both flight
  sequences are empty, so the code's flight score is NaN and every such login
  is rejected.
- **Inclusive threshold.** The threshold test is `>=`. In exact arithmetic, an
  attempt whose hold times are all doubled but whose flight times match scores
  exactly 0.75 and is therefore accepted
  (`DoubledHoldsWithSameFlightsAccepted`). With the double-precision numbers
  the code uses, rounding can put that composite just below 0.75, so the
  outcome at the boundary is not fixed (see "Floating-point rounding" under
  Left out).
- **Template shape.** The code never checks that the samples have equal length.
  It takes the length of the first sample and reads the same index in the
  others. The model requires only that no sample is shorter than the first.
- **No rejection of malformed entries.** An entry that is still open (release
  time 0) just gives a negative hold time, and the model keeps that behaviour.
- **Empty token.** The idle check tests `token` for truthiness. A session whose
  token is the empty string therefore never times out (`SessionStore.Tick`).

## Model

| member | source | states |
|---|---|---|
| KeystrokeAnalysis.CalculateKeystrokeMetrics | src/utils/keystrokeAnalysis.ts:3-20 | exactly one hold time per keystroke, `durations[i] = keyUp[i] - keyDown[i]`; `n - 1` flight times for `n >= 1` keystrokes and none for an empty entry, `flights[i] = keyDown[i+1] - keyUp[i]`; the loop's result equals the pointwise reference `Metrics` |
| KeystrokeAnalysis.MetricsOfExtension | src/utils/keystrokeAnalysis.ts:7-16 | appending keystrokes to an entry only extends its hold and flight sequences; the existing values are kept |
| KeystrokeAnalysis.CalculateAveragePattern | src/utils/keystrokeAnalysis.ts:39-52 | needs at least one sample and none shorter than the first; returns a sequence of the first sample's length whose i-th entry is the sum of the samples' i-th values divided by the number of samples |
| KeystrokeAnalysis.AverageOfExtensions | src/utils/keystrokeAnalysis.ts:39-52 | when every sample extends the first one, the average is exactly the first sample |
| KeystrokeAnalysis.AverageOfCopies | src/utils/keystrokeAnalysis.ts:43-49 | in exact arithmetic, averaging k >= 1 copies of one sample returns that sample unchanged |
| KeystrokeAnalysis.CalculateSimilarity | src/utils/keystrokeAnalysis.ts:54-65 | returns 0 whenever the lengths differ; otherwise returns the mean over the indices of `1 - abs(a-b)/max(a,b)`, equal to the reference `Similarity` |
| KeystrokeAnalysis.SimilarityOfMismatchedLengths | src/utils/keystrokeAnalysis.ts:55 | a length mismatch scores exactly 0 whatever the contents, and needs no precondition on the values |
| KeystrokeAnalysis.TermOfPositives | src/utils/keystrokeAnalysis.ts:59-61 | for positive times each term equals `min/max`, lies in (0, 1], and is 1 exactly when the two times are equal |
| KeystrokeAnalysis.SimilarityInUnitInterval | src/utils/keystrokeAnalysis.ts:58-64 | for equal-length, non-empty, strictly positive sequences the score lies in (0, 1] |
| KeystrokeAnalysis.SimilarityOneIffEqual | src/utils/keystrokeAnalysis.ts:58-64 | for such sequences the score is 1 if and only if the sequences are identical |
| KeystrokeAnalysis.SimilaritySymmetric | src/utils/keystrokeAnalysis.ts:59-61 | swapping the two sequences changes neither whether the score is defined nor its value |
| KeystrokeAnalysis.SimilarityOfDoubled | src/utils/keystrokeAnalysis.ts:58-64 | doubling every positive value gives a score of exactly 1/2 |
| KeystrokeAnalysis.ComparePatterns | src/utils/keystrokeAnalysis.ts:22-37 | the accept rule on the mean of the two channel scores against the averaged templates: an accepted attempt has the template's length in at least one channel, two perfect channel scores always pass, and two scores of at most 1/2 never do |
| KeystrokeAnalysis.RejectsWhenBothChannelsMismatch | src/utils/keystrokeAnalysis.ts:31-36 | if both the attempt's hold and flight sequences differ in length from the averaged template, the attempt is rejected |
| KeystrokeAnalysis.RejectsWhenOneChannelMismatches | src/utils/keystrokeAnalysis.ts:31-36 | with positive times, a length mismatch in just one channel already rejects, because the mean is then at most 1/2 |
| KeystrokeAnalysis.AcceptsIdenticalSamples | src/utils/keystrokeAnalysis.ts:22-37 | if every stored sample equals the attempt (positive times, at least two keys), both channel scores are 1 and the attempt is accepted |
| KeystrokeAnalysis.RejectsDifferentLengthEntry | src/utils/keystrokeAnalysis.ts:22-37 | a template built from n-key entries scores 0 on both channels against any entry of m >= 1 keys with m != n, and rejects it |
| KeystrokeAnalysis.DoubledHoldsWithSameFlightsAccepted | src/utils/keystrokeAnalysis.ts:35-36 | the `>=` test is inclusive: in exact arithmetic, doubled hold times with matching flight times give a composite of exactly 0.75, which is accepted |
| KeystrokeInput.FirstOpen | src/components/KeystrokeInput.tsx:31-33 | the search finds the earliest entry for the key that is not yet released, and finds nothing exactly when no such entry exists |
| KeystrokeInput.KeyDown | src/components/KeystrokeInput.tsx:15-23 | pressing Enter changes nothing; pressing any other key appends `{key, now, keyUpTime: 0}` at the end and keeps the earlier entries and the snapshot |
| KeystrokeInput.KeyUp | src/components/KeystrokeInput.tsx:25-39 | releasing Enter delivers the snapshot and changes nothing. Releasing another key stamps `now` on the first open entry for that key only; it keeps the buffer length and re-takes the snapshot. With no open entry, neither the buffer nor the snapshot changes |
| KeystrokeInput.BufferOnlyGrows | src/components/KeystrokeInput.tsx:13-39 | over any sequence of events, no entry is removed or reordered; each keeps its key and press time, and a released entry is never altered again |
| KeystrokeInput.SnapshotOnlyGrows | src/components/KeystrokeInput.tsx:25-39 | over any run the delivered snapshot agrees with the buffer it was copied from, and each new snapshot keeps every entry of the earlier one in place |
| KeystrokeInput.EarlierSubmissionReappears | src/components/KeystrokeInput.tsx:25-39 | a snapshot whose entries are all released is a prefix of every later snapshot, so a mounted input re-delivers earlier submissions |
| KeystrokeInput.SecondSubmissionCarriesFirst | src/components/KeystrokeInput.tsx:13-39 | typing "a" then Enter twice delivers one keystroke the first time and two the second |
| KeystrokeInput.KeyUpPerSubmission | src/components/KeystrokeInput.tsx:25-29 | corrected release handler: Enter delivers the snapshot and leaves an empty recorder behind; every other key behaves as in the source |
| KeystrokeInput.SubmissionsIndependent | src/components/KeystrokeInput.tsx:25-29 | with the corrected handler, whatever was typed before an Enter has no effect on the recorder afterwards |
| Registration.ResetAttempts | src/components/Register.tsx:20-26 | restarting enrolment returns to repetition 1 with no patterns, an empty field and no error, keeps the username, and leaves a form that satisfies the enrolment invariant |
| Registration.InitialConsistent | src/components/Register.tsx:12-17 | the form as first rendered satisfies the enrolment invariant: repetition 1, no patterns, no reference password |
| Registration.OnComplete | src/components/Register.tsx:28-79 | repetition 1 makes the typed password the reference, clears the field, moves to repetition 2 and holds just this entry's pattern. A later mismatch resets to repetition 1 with no patterns, an empty reference, an empty field and no error. A match appends the pattern at the end. Repetitions 2-4 then advance by exactly one and clear the field. A record (username, reference password, all patterns) is emitted exactly when a match happens at repetition 5 or later, keeping the password field; a failed or throwing insert leaves repetition 5 with its error message, a successful one keeps the error as it was |
| Registration.RunKeepsConsistent | src/components/Register.tsx:28-49 | in every run of user actions, the counter stays in 1..5. At repetition 1 no pattern and no reference are held. Before repetition n (n = 2..4) exactly n - 1 patterns are held, and at repetition 5 at least four |
| Registration.OnCompleteTracks | src/components/Register.tsx:29-44 | the collected patterns are always the patterns of the entries since the last restart, in order, each typed with the reference password |
| Registration.EmittedRecordProvenance | src/components/Register.tsx:43-62 | a record is emitted only at repetition 5; it carries at least five patterns, one per collected entry plus the current one, each from an entry typed with the record's password |
| Registration.RepeatCollects | src/components/Register.tsx:29-49 | typing one password k = 1..4 times from a fresh start reaches repetition k + 1 holding those k patterns in order |
| Registration.FiveMatchingRepetitions | src/components/Register.tsx:28-62 | typing one password five times from a fresh start emits exactly the record (username, password, the five entries' patterns in order) |
| Registration.EnrolledTimingAccepted | src/components/Register.tsx:43-62 | enrolling five times with one positive timing and then logging in with the same timing is accepted |
| Registration.TemplateOfGrowingEntries | src/components/Register.tsx:43-62 | when each of the five entries extends the first one, as a never-cleared input delivers them, the averaged template is exactly the first entry's pattern |
| Registration.RetryAfterFailedInsertEmitsSix | src/components/Register.tsx:43-66 | after a failed insert the form stays at repetition 5 holding five patterns, so pressing Enter again emits a record with six |
| Registration.OnCompleteKeepingFour | src/components/Register.tsx:43-66 | corrected handler: same outcome as the source on every Enter, but an emitted pattern goes into the record only and the form keeps its four patterns |
| Registration.CorrectedRecordsHaveFive | src/components/Register.tsx:43-66 | with the corrected handler, exactly attempt - 1 patterns are held before every repetition, and every record ever emitted carries exactly five patterns |
| AuthStore.Create | src/store/authStore.ts:13-15 | the store starts with the saved current user and no users, so no lookup finds anyone |
| AuthStore.AddUser | src/store/authStore.ts:16-20 | appends the user at the end: the length grows by one, earlier users and the current user are unchanged |
| AuthStore.AppendPattern | src/store/authStore.ts:23-30 | position by position, a user with the given name gets the pattern appended to its samples and every other user is returned unchanged |
| AuthStore.AddKeystrokePattern | src/store/authStore.ts:21-32 | keeps the list's length, order, names and passwords. Users with another name are untouched; each matching user's samples are kept with the pattern appended at the end |
| AuthStore.FirstNamed | src/store/authStore.ts:33-35 | finds the earliest position holding the name, or nothing when no user has it |
| AuthStore.GetUser | src/store/authStore.ts:33-35 | returns the first user with the name, or nothing exactly when no user has it |
| AuthStore.SetCurrentUser | src/store/authStore.ts:36-37 | the current user becomes the given one and the user list is unchanged |
| AuthStore.GetUserAfterAddUser | src/store/authStore.ts:16-35 | after adding a user, an earlier user with the same name is still the one found; otherwise the new user is found under their own name and nobody under other unused names |
| AuthStore.GetUserAfterAddKeystrokePattern | src/store/authStore.ts:21-35 | after adding a pattern for a name, looking that name up finds the same user with the pattern at the end; looking up any other name finds what it found before |
| SessionStore.Create | src/store/sessionStore.ts:16-18 | the session starts without a token, stamped `now`, so the idle check never fires on it |
| SessionStore.SetToken | src/store/sessionStore.ts:19 | sets the token and stamps the last activity with `now` |
| SessionStore.ClearSession | src/store/sessionStore.ts:20 | removes the token and stamps the last activity with `now` |
| SessionStore.UpdateActivity | src/store/sessionStore.ts:21 | stamps the last activity with `now` and keeps the token |
| SessionStore.Tick | src/store/sessionStore.ts:30-35 | clears the session and redirects exactly when a non-empty token is held and more than 1 800 000 ms (strictly) have passed since the last activity; otherwise the state is unchanged |
| SessionStore.ClearedSessionStaysQuiet | src/store/sessionStore.ts:20-35 | once the token is gone, no check fires again and the token stays absent until a token is set |
| SessionStore.TimeoutWindow | src/store/sessionStore.ts:12-35 | no check fires within 30 minutes of the last activity, and a check that fires would also fire at any later time |

## Findings

| source | as written | input that shows it | evidently intended | confidence | as-written member | corrected member |
|---|---|---|---|---|---|---|
| src/components/KeystrokeInput.tsx:13-39 | neither the buffer nor the snapshot is ever emptied, so Enter hands over everything typed since the input was mounted | type "a", Enter, "a", Enter: the second delivery holds two keystrokes | each Enter delivers only the keystrokes of that submission | medium, not executed | KeystrokeInput.SecondSubmissionCarriesFirst | KeystrokeInput.KeyUpPerSubmission |
| src/components/Register.tsx:43-66 | the fifth pattern is stored in the form before the insert; after a failed insert the form stays at repetition 5 with the password still filled in | at repetition 5 with four patterns, press Enter with a failing insert, then press Enter again: the second record has six patterns | every user record carries exactly five patterns | medium, not executed | Registration.RetryAfterFailedInsertEmitsSix | Registration.OnCompleteKeepingFour |

The recorder finding has consequences for enrolment and login.

- The password field of the registration form stays mounted for all five
  repetitions. When every key of the first entry was released before Enter,
  each later entry extends the first one (`KeystrokeInput.EarlierSubmissionReappears`).
  A key still held when Enter is released, such as Shift, is delivered with
  release time 0 and closed later, so that entry differs from the later ones.
- When the entries do extend the first one, `Registration.TemplateOfGrowingEntries`
  shows that, in exact arithmetic, the averaged template is the first
  repetition's pattern. With double-precision numbers the average of equal
  values can differ from them in the last bits.
- The first Enter after the login form mounts delivers only that entry, so it
  can match the template in length. After "User not found." or "Invalid
  username or password" (src/components/Login.tsx:48-61), the same password
  input stays mounted (src/components/Login.tsx:114-119). A retry then
  delivers the earlier keystrokes as well. Such an entry is generally longer
  than the template, and `KeystrokeAnalysis.RejectsDifferentLengthEntry` shows
  that a different-length entry is rejected.

The corrected recorder is proved independent of earlier submissions by
`KeystrokeInput.SubmissionsIndependent`. The corrected enrolment handler is
proved to emit only five-pattern records by `Registration.CorrectedRecordsHaveFive`.
Up to the first emitted record, the corrected handler and the source's handler
agree. So `FiveMatchingRepetitions` and `EnrolledTimingAccepted` describe both.

## Left out

- KeystrokeAnalysis.CalculateSimilarity: requires `Comparable`. The source computes NaN when both sequences are empty or `0/0` at an index, and an infinity for `x/0`; the model does not represent those values.
- KeystrokeAnalysis.CalculateAveragePattern: requires `Averageable`. The source fails on an empty list (`patterns[0]`) and yields NaN when a later sample is shorter than the first; the model does not represent those cases.
- Password hashing and the database insert in the registration form are replaced by the emitted record and a caller-supplied `InsertResult`. The record holds the plain password where the source stores its hash.
- The two-second delay before a mismatch resets the form is an immediate reset. The mismatch message is reported as the `Mismatch` outcome.
- Navigation to the login page after a successful insert is the `Inserted` result. The model does not unmount the form. The loading overlay, alerts and console logging are left out.
- The login form (`Login.tsx`) is not part of this model. Apart from database and hashing calls, its only decision is `comparePatterns`, which is modelled. Its fixed one-time password is not modelled.
- File management, at-rest encryption, the dashboard, routing and build configuration are not part of this model.
- Local storage: `AuthStore.Create` takes the saved current user as a parameter. `setCurrentUser` writing it back is not modelled, and neither is the session store's persistence middleware.
- The once-a-minute interval that runs the idle check is not modelled. The caller applies `SessionStore.Tick` at times of its choosing. The redirect is reported as a flag.
- React's asynchronous state updates and re-renders are not modelled. Every state update takes effect before the next event.
- The text value and `onChange` pass-through of the input component are modelled only as the form's `TypeUsername` and `TypePassword` events. The username field's input has a no-op Enter handler and is not modelled.
- Floating-point rounding is not modelled: all arithmetic is exact. The exact results about boundaries (a composite of exactly 0.75, an average of equal samples returning the sample) may not hold bit-for-bit with double-precision numbers.
