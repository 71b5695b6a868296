/**
 The enrolment form (src/components/Register.tsx): five repetitions of the
 password, each turned into a keystroke pattern, then one user record holding
 all the patterns.

 The form state is a record and the Enter handler a transition function.
 Hashing and the database insert are replaced by an emitted record together
 with the insert's result, which the caller supplies.  The two-second delay
 before a mismatch resets the form is taken as an immediate reset.
 */
module Registration {
  import opened Options
  import opened AuthTypes
  import opened KeystrokeAnalysis

  /** Number of times the password is typed during enrolment. */
  const Repetitions: int := 5

  const MismatchMessage: string := "Password does not match the first attempt. Please start over."
  const FailedMessage: string := "Registration failed. Please try again."
  const UnexpectedMessage: string := "An unexpected error occurred. Please try again."

  /** The form's state: the two fields, the repetition being typed (1..5), the
      patterns collected so far and the password typed the first time. */
  datatype Form = Form(
    username: string,
    password: string,
    attempt: int,
    keystrokePatterns: seq<KeystrokePattern>,
    firstPassword: string,
    error: string)

  /** The form as first rendered. */
  const Initial: Form := Form("", "", 1, [], "", "")

  /** How persisting the record ended: stored, refused by the store, or an exception. */
  datatype InsertResult = Inserted | InsertError | InsertThrew

  /** What one Enter did: took a repetition, rejected a mismatching one, or
      handed a finished record to the store. */
  datatype Outcome = Captured | Mismatch | Emitted(record: UserData, result: InsertResult)

  datatype Transition = Transition(next: Form, outcome: Outcome)

  /** Clears the repetitions; the username is kept. */
  function ResetAttempts(f: Form): (g: Form)
    // whatever the form held before, the result is a valid starting point
    ensures Consistent(g) && ConsistentExactly(g)
    ensures g.attempt == 1 && g.keystrokePatterns == [] && g.password == "" && g.error == ""
    ensures g.username == f.username
  {
    f.(attempt := 1, keystrokePatterns := [], firstPassword := "", password := "", error := "")
  }

  /** The Enter handler of the password field, given the keystrokes the input
      delivered and the result the store would give. */
  function OnComplete(f: Form, keystrokes: seq<KeystrokeData>, insert: InsertResult): (t: Transition)
    // the first repetition is taken without comparison and becomes the reference
    ensures f.attempt == 1 ==>
              && t.outcome == Captured
              && t.next == f.(firstPassword := f.password, password := "", attempt := 2,
                              keystrokePatterns := [Metrics(keystrokes)])
    // a later repetition that differs from the reference discards all progress
    ensures f.attempt != 1 && f.password != f.firstPassword ==>
              && t.outcome == Mismatch
              && t.next == ResetAttempts(f)
    // a matching repetition is appended to the collected patterns, nothing is dropped
    ensures f.attempt != 1 && f.password == f.firstPassword ==>
              && t.next.keystrokePatterns == f.keystrokePatterns + [Metrics(keystrokes)]
              && t.next.firstPassword == f.firstPassword
              && t.next.username == f.username
    // repetitions 2..4 advance by exactly one and clear the field
    ensures 1 < f.attempt < Repetitions && f.password == f.firstPassword ==>
              && t.outcome == Captured
              && t.next.attempt == f.attempt + 1
              && t.next.password == ""
              && t.next.error == ""
    // a record leaves the form exactly when a repetition from the fifth on matches
    ensures t.outcome.Emitted? <==> f.attempt >= Repetitions && f.password == f.firstPassword
    ensures t.outcome.Emitted? ==>
              && t.outcome.record == UserData(f.username, f.firstPassword, t.next.keystrokePatterns)
              && t.outcome.result == insert
              && t.next.attempt == f.attempt
              && t.next.password == f.password
              && (insert == Inserted ==> t.next.error == f.error)
              && (insert == InsertError ==> t.next.error == FailedMessage)
              && (insert == InsertThrew ==> t.next.error == UnexpectedMessage)
  {
    if f.attempt == 1 then
      Transition(
        f.(firstPassword := f.password, password := "", attempt := 2,
           keystrokePatterns := [Metrics(keystrokes)]),
        Captured)
    else if f.password != f.firstPassword then
      Transition(ResetAttempts(f.(error := MismatchMessage)), Mismatch)
    else
      var patterns := f.keystrokePatterns + [Metrics(keystrokes)];
      if f.attempt < Repetitions then
        Transition(
          f.(keystrokePatterns := patterns, password := "", attempt := f.attempt + 1, error := ""),
          Captured)
      else
        var record := UserData(f.username, f.password, patterns);
        var stored := f.(keystrokePatterns := patterns);
        match insert
        case Inserted => Transition(stored, Emitted(record, insert))
        case InsertError => Transition(stored.(error := FailedMessage), Emitted(record, insert))
        case InsertThrew => Transition(stored.(error := UnexpectedMessage), Emitted(record, insert))
  }

  /** What the user does with the form: edit a field or press Enter in the password field. */
  datatype FormEvent =
    | TypeUsername(username: string)
    | TypePassword(password: string)
    | PressEnter(keystrokes: seq<KeystrokeData>, insert: InsertResult)

  function Apply(f: Form, e: FormEvent): Transition
  {
    match e
    case TypeUsername(u) => Transition(f.(username := u), Captured)
    case TypePassword(p) => Transition(f.(password := p), Captured)
    case PressEnter(ks, ins) => OnComplete(f, ks, ins)
  }

  function Run(f: Form, es: seq<FormEvent>): Form
    decreases |es|
  {
    if es == [] then f else Run(Apply(f, es[0]).next, es[1..])
  }

  // ---------------------------------------------------------------------------
  // Invariant: the repetition counter and the collected patterns agree
  // ---------------------------------------------------------------------------

  /** The counter stays in 1..5; before repetition n (n = 2..4) exactly n - 1
      patterns are held; at repetition 5 at least four are. */
  predicate Consistent(f: Form)
  {
    && 1 <= f.attempt <= Repetitions
    && (f.attempt == 1 ==> f.keystrokePatterns == [] && f.firstPassword == "")
    && (1 < f.attempt < Repetitions ==> |f.keystrokePatterns| == f.attempt - 1)
    && (f.attempt == Repetitions ==> |f.keystrokePatterns| >= Repetitions - 1)
  }

  lemma ApplyKeepsConsistent(f: Form, e: FormEvent)
    requires Consistent(f)
    ensures Consistent(Apply(f, e).next)
  {
  }

  /** The form as first rendered satisfies both the invariant of the code and
      the stricter one of the corrected handler. */
  lemma InitialConsistent()
    ensures Consistent(Initial) && ConsistentExactly(Initial)
  {
  }

  /** From the initial form, whatever the user does, the counter never leaves
      1..5 and matches the number of collected patterns. */
  lemma {:induction false} RunKeepsConsistent(f: Form, es: seq<FormEvent>)
    requires Consistent(f)
    ensures Consistent(Run(f, es))
    decreases |es|
  {
    if es != [] {
      ApplyKeepsConsistent(f, es[0]);
      RunKeepsConsistent(Apply(f, es[0]).next, es[1..]);
    }
  }

  // ---------------------------------------------------------------------------
  // Provenance: which entries the collected patterns come from
  // ---------------------------------------------------------------------------

  /** One press of Enter: the password field at that moment and the keystrokes delivered. */
  datatype Submission = Submission(password: string, keystrokes: seq<KeystrokeData>)

  /** `hist` lists the entries behind the collected patterns, in order, and
      each of them was typed with the reference password. */
  predicate Tracks(f: Form, hist: seq<Submission>)
  {
    && |hist| == |f.keystrokePatterns|
    && forall i :: 0 <= i < |hist| ==>
         && f.keystrokePatterns[i] == Metrics(hist[i].keystrokes)
         && hist[i].password == f.firstPassword
  }

  /** The entries behind the patterns after one Enter: the first repetition
      starts the list, a mismatch empties it, a match extends it. */
  function Collect(f: Form, hist: seq<Submission>, keystrokes: seq<KeystrokeData>): seq<Submission>
  {
    if f.attempt == 1 then [Submission(f.password, keystrokes)]
    else if f.password != f.firstPassword then []
    else hist + [Submission(f.password, keystrokes)]
  }

  lemma OnCompleteTracks(f: Form, hist: seq<Submission>, keystrokes: seq<KeystrokeData>, insert: InsertResult)
    requires Tracks(f, hist)
    ensures Tracks(OnComplete(f, keystrokes, insert).next, Collect(f, hist, keystrokes))
  {
  }

  /** A record is emitted only at repetition 5 on a match; it carries one
      pattern per collected entry plus the current one, at least five, and
      every one of them comes from an entry typed with the record's password. */
  lemma EmittedRecordProvenance(f: Form, hist: seq<Submission>, keystrokes: seq<KeystrokeData>, insert: InsertResult)
    requires Consistent(f) && Tracks(f, hist)
    ensures OnComplete(f, keystrokes, insert).outcome.Emitted? ==>
              var r := OnComplete(f, keystrokes, insert).outcome.record;
              var entries := Collect(f, hist, keystrokes);
              && f.attempt == Repetitions
              && |r.keystrokePatterns| == |entries| >= Repetitions
              && forall i :: 0 <= i < |entries| ==>
                   r.keystrokePatterns[i] == Metrics(entries[i].keystrokes) && entries[i].password == r.password
  {
    OnCompleteTracks(f, hist, keystrokes, insert);
  }

  // ---------------------------------------------------------------------------
  // Five matching repetitions
  // ---------------------------------------------------------------------------

  function AllMetrics(entries: seq<seq<KeystrokeData>>): seq<KeystrokePattern>
  {
    seq(|entries|, i requires 0 <= i < |entries| => Metrics(entries[i]))
  }

  /** Type `password` and press Enter once per entry, starting from `f`. */
  function Repeat(f: Form, password: string, entries: seq<seq<KeystrokeData>>, insert: InsertResult): Transition
    decreases |entries|
  {
    if entries == [] then Transition(f, Captured)
    else
      var before := Repeat(f, password, entries[..|entries| - 1], insert).next;
      OnComplete(before.(password := password), entries[|entries| - 1], insert)
  }

  lemma {:induction false} RepeatCollects(f: Form, password: string, entries: seq<seq<KeystrokeData>>, insert: InsertResult)
    requires f.attempt == 1
    requires 1 <= |entries| < Repetitions
    ensures var g := Repeat(f, password, entries, insert).next;
            && g.attempt == |entries| + 1
            && g.firstPassword == password
            && g.username == f.username
            && g.keystrokePatterns == AllMetrics(entries)
    decreases |entries|
  {
    var init := entries[..|entries| - 1];
    if |entries| > 1 {
      RepeatCollects(f, password, init, insert);
      assert AllMetrics(entries) == AllMetrics(init) + [Metrics(entries[|entries| - 1])];
    }
  }

  /** Typing one password five times from a fresh start hands over exactly one
      record: the username, that password, and the five entries' patterns in order. */
  lemma FiveMatchingRepetitions(f: Form, password: string, entries: seq<seq<KeystrokeData>>, insert: InsertResult)
    requires f.attempt == 1
    requires |entries| == Repetitions
    ensures Repeat(f, password, entries, insert).outcome
         == Emitted(UserData(f.username, password, AllMetrics(entries)), insert)
  {
    var init := entries[..Repetitions - 1];
    RepeatCollects(f, password, init, insert);
    assert AllMetrics(entries) == AllMetrics(init) + [Metrics(entries[Repetitions - 1])];
  }

  /** Enrolling with one timing five times and logging in with that same
      timing is accepted (positive times, at least two keys). */
  lemma EnrolledTimingAccepted(f: Form, password: string, ks: seq<KeystrokeData>, insert: InsertResult)
    requires f.attempt == 1
    requires |ks| >= 2
    requires Positive(Metrics(ks).durationTimes) && Positive(Metrics(ks).flightTimes)
    ensures var out := Repeat(f, password, seq(Repetitions, _ => ks), insert).outcome;
            && out.Emitted?
            && Scorable(out.record.keystrokePatterns, Metrics(ks))
            && ComparePatterns(out.record.keystrokePatterns, Metrics(ks))
  {
    var entries := seq(Repetitions, _ => ks);
    FiveMatchingRepetitions(f, password, entries, insert);
    AcceptsIdenticalSamples(AllMetrics(entries), Metrics(ks));
  }

  /** When the five entries come from one input that is never cleared, each
      entry extends the first, and the averaged template is just the first
      repetition's pattern: repetitions 2..5 do not change it. */
  lemma TemplateOfGrowingEntries(entries: seq<seq<KeystrokeData>>)
    requires |entries| == Repetitions
    requires forall j :: 0 <= j < |entries| ==> entries[0] <= entries[j]
    ensures Averageable(DurationSamples(AllMetrics(entries)))
    ensures Averageable(FlightSamples(AllMetrics(entries)))
    ensures AveragePattern(DurationSamples(AllMetrics(entries))) == Metrics(entries[0]).durationTimes
    ensures AveragePattern(FlightSamples(AllMetrics(entries))) == Metrics(entries[0]).flightTimes
  {
    var stored := AllMetrics(entries);
    forall j | 0 <= j < |entries|
      ensures Metrics(entries[0]).durationTimes <= stored[j].durationTimes
      ensures Metrics(entries[0]).flightTimes <= stored[j].flightTimes
    {
      MetricsOfExtension(entries[0], entries[j][|entries[0]|..]);
      assert entries[0] + entries[j][|entries[0]|..] == entries[j];
    }
    AverageOfExtensions(DurationSamples(stored));
    AverageOfExtensions(FlightSamples(stored));
  }

  // ---------------------------------------------------------------------------
  // A failed insert followed by Enter again
  // ---------------------------------------------------------------------------

  /** After the store refuses the record the form stays at repetition 5 with
      five patterns and the password still filled in, so pressing Enter again
      hands over a record with six patterns. */
  lemma RetryAfterFailedInsertEmitsSix(f: Form, ks1: seq<KeystrokeData>, ks2: seq<KeystrokeData>, insert: InsertResult)
    requires f.attempt == Repetitions && |f.keystrokePatterns| == Repetitions - 1
    requires f.password == f.firstPassword
    ensures var first := OnComplete(f, ks1, InsertError);
            && first.outcome.Emitted? && |first.outcome.record.keystrokePatterns| == Repetitions
            && first.next.attempt == Repetitions
            && |first.next.keystrokePatterns| == Repetitions
            && var second := OnComplete(first.next, ks2, insert);
               second.outcome.Emitted? && |second.outcome.record.keystrokePatterns| == Repetitions + 1
  {
  }

  /** Corrected handler: the fifth pattern goes into the record only, so the
      form keeps four patterns whatever the store answers. */
  function OnCompleteKeepingFour(f: Form, keystrokes: seq<KeystrokeData>, insert: InsertResult): (t: Transition)
    ensures t.outcome == OnComplete(f, keystrokes, insert).outcome
    ensures t.outcome.Emitted? ==> t.next.keystrokePatterns == f.keystrokePatterns
  {
    var t := OnComplete(f, keystrokes, insert);
    if t.outcome.Emitted? then Transition(t.next.(keystrokePatterns := f.keystrokePatterns), t.outcome)
    else t
  }

  /** The corrected invariant: exactly attempt - 1 patterns before every repetition. */
  predicate ConsistentExactly(f: Form)
  {
    && 1 <= f.attempt <= Repetitions
    && (f.attempt == 1 ==> f.firstPassword == "")
    && |f.keystrokePatterns| == f.attempt - 1
  }

  function ApplyKeepingFour(f: Form, e: FormEvent): Transition
  {
    match e
    case PressEnter(ks, ins) => OnCompleteKeepingFour(f, ks, ins)
    case _ => Apply(f, e)
  }

  function RunKeepingFour(f: Form, es: seq<FormEvent>): Form
    decreases |es|
  {
    if es == [] then f else RunKeepingFour(ApplyKeepingFour(f, es[0]).next, es[1..])
  }

  /** With the corrected handler every record ever emitted carries exactly
      five patterns, however often the insert fails and Enter is pressed again. */
  lemma {:induction false} CorrectedRecordsHaveFive(f: Form, es: seq<FormEvent>, e: FormEvent)
    requires ConsistentExactly(f)
    ensures ConsistentExactly(RunKeepingFour(f, es))
    ensures ApplyKeepingFour(RunKeepingFour(f, es), e).outcome.Emitted? ==>
              |ApplyKeepingFour(RunKeepingFour(f, es), e).outcome.record.keystrokePatterns| == Repetitions
    decreases |es|
  {
    if es != [] {
      CorrectedRecordsHaveFive(ApplyKeepingFour(f, es[0]).next, es[1..], e);
    }
  }
}
