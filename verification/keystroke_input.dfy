/**
 The key-event recorder behind every password field
 (src/components/KeystrokeInput.tsx).

 The component keeps two things: a mutable buffer of timed key presses, and a
 snapshot copied from that buffer after every key release that closed an entry.
 Pressing a key appends an open entry (release time 0); releasing it closes the
 first open entry for that key; releasing Enter hands the snapshot to the form.
 The clock value of `performance.now()` is passed in as `now`.
 */
module KeystrokeInput {
  import opened Options
  import opened AuthTypes

  /** The key that ends an entry; it is never recorded itself. */
  const Enter: string := "Enter"

  /** `buffer` is the mutable list the handlers append to and patch;
      `keystrokes` is the copy of it last taken, which Enter delivers. */
  datatype Recorder = Recorder(buffer: seq<KeystrokeData>, keystrokes: seq<KeystrokeData>)

  /** A freshly mounted input. */
  const Mounted: Recorder := Recorder([], [])

  /** The result of handling one key event: the next recorder, and the
      keystrokes handed to the form, if the event was a release of Enter. */
  datatype Handled = Handled(next: Recorder, delivered: Option<seq<KeystrokeData>>)

  /** An entry for `key` that has been pressed but not yet released. */
  predicate IsOpen(k: KeystrokeData, key: string)
  {
    k.key == key && k.keyUpTime == 0.0
  }

  /** Index `i` holds the earliest open entry for `key`. */
  predicate IsFirstOpen(buf: seq<KeystrokeData>, key: string, i: int)
  {
    0 <= i < |buf| && IsOpen(buf[i], key) && forall j :: 0 <= j < i ==> !IsOpen(buf[j], key)
  }

  predicate HasOpen(buf: seq<KeystrokeData>, key: string)
  {
    exists i :: 0 <= i < |buf| && IsOpen(buf[i], key)
  }

  /** The search the release handler runs over the buffer. */
  function FirstOpen(buf: seq<KeystrokeData>, key: string): (r: Option<nat>)
    ensures r.Some? ==> IsFirstOpen(buf, key, r.value)
    ensures r.None? <==> !HasOpen(buf, key)
  {
    if buf == [] then None
    else if IsOpen(buf[0], key) then Some(0)
    else match FirstOpen(buf[1..], key)
      case None =>
        assert forall j :: 1 <= j < |buf| ==> buf[j] == buf[1..][j - 1];
        None
      case Some(i) =>
        assert forall j :: 1 <= j <= i + 1 ==> buf[j] == buf[1..][j - 1];
        Some(i + 1)
  }

  /** Key press: anything but Enter appends an open entry stamped `now`. */
  function KeyDown(r: Recorder, key: string, now: real): (r': Recorder)
    ensures key == Enter ==> r' == r
    ensures key != Enter ==> r'.buffer == r.buffer + [KeystrokeData(now, 0.0, key)]
    ensures r'.keystrokes == r.keystrokes
  {
    if key == Enter then r
    else r.(buffer := r.buffer + [KeystrokeData(now, 0.0, key)])
  }

  /** Key release: Enter delivers the snapshot; any other key closes the
      earliest open entry for it and re-takes the snapshot, or does nothing
      when there is no such entry. */
  function KeyUp(r: Recorder, key: string, now: real): (h: Handled)
    ensures key == Enter ==> h == Handled(r, Some(r.keystrokes))
    ensures key != Enter ==> h.delivered == None && |h.next.buffer| == |r.buffer|
    ensures key != Enter ==> forall i :: 0 <= i < |r.buffer| ==>
              h.next.buffer[i] == if IsFirstOpen(r.buffer, key, i) then r.buffer[i].(keyUpTime := now) else r.buffer[i]
    ensures key != Enter ==> h.next.keystrokes == if HasOpen(r.buffer, key) then h.next.buffer else r.keystrokes
  {
    if key == Enter then Handled(r, Some(r.keystrokes))
    else match FirstOpen(r.buffer, key)
      case None => Handled(r, None)
      case Some(i) =>
        var buffer := r.buffer[i := r.buffer[i].(keyUpTime := now)];
        assert forall j :: 0 <= j < |r.buffer| && j != i ==> !IsFirstOpen(r.buffer, key, j);
        Handled(Recorder(buffer, buffer), None)
  }

  datatype KeyEvent = Down(key: string, time: real) | Up(key: string, time: real)

  function Step(r: Recorder, e: KeyEvent): Handled
  {
    match e
    case Down(key, t) => Handled(KeyDown(r, key, t), None)
    case Up(key, t) => KeyUp(r, key, t)
  }

  /** The recorder after a sequence of events. */
  function Run(r: Recorder, es: seq<KeyEvent>): Recorder
    decreases |es|
  {
    if es == [] then r else Run(Step(r, es[0]).next, es[1..])
  }

  /** Every keystroke list handed over while the events are processed, in order. */
  function Deliveries(r: Recorder, es: seq<KeyEvent>): seq<seq<KeystrokeData>>
    decreases |es|
  {
    if es == [] then []
    else
      var h := Step(r, es[0]);
      (if h.delivered.Some? then [h.delivered.value] else []) + Deliveries(h.next, es[1..])
  }

  // ---------------------------------------------------------------------------
  // The buffer only grows
  // ---------------------------------------------------------------------------

  /** `later` keeps every entry of `earlier` in place: same key and press time,
      and an entry that was already released is kept exactly. */
  predicate Extends(earlier: seq<KeystrokeData>, later: seq<KeystrokeData>)
  {
    && |earlier| <= |later|
    && forall i :: 0 <= i < |earlier| ==>
         && later[i].key == earlier[i].key
         && later[i].keyDownTime == earlier[i].keyDownTime
         && (earlier[i].keyUpTime != 0.0 ==> later[i] == earlier[i])
  }

  lemma ExtendsTransitive(a: seq<KeystrokeData>, b: seq<KeystrokeData>, c: seq<KeystrokeData>)
    requires Extends(a, b) && Extends(b, c)
    ensures Extends(a, c)
  {
  }

  /** One event never removes, reorders or re-times a recorded press. */
  lemma StepExtendsBuffer(r: Recorder, e: KeyEvent)
    ensures Extends(r.buffer, Step(r, e).next.buffer)
  {
  }

  /** No sequence of events removes an entry: the buffer only grows, and every
      recorded press keeps its key and press time, released ones entirely. */
  lemma {:induction false} BufferOnlyGrows(r: Recorder, es: seq<KeyEvent>)
    ensures Extends(r.buffer, Run(r, es).buffer)
    decreases |es|
  {
    if es != [] {
      var r1 := Step(r, es[0]).next;
      StepExtendsBuffer(r, es[0]);
      BufferOnlyGrows(r1, es[1..]);
      ExtendsTransitive(r.buffer, r1.buffer, Run(r1, es[1..]).buffer);
    }
  }

  // ---------------------------------------------------------------------------
  // The snapshot is the buffer as it was at the last successful release
  // ---------------------------------------------------------------------------

  /** The snapshot agrees with the buffer it was copied from. */
  predicate SnapshotAgrees(r: Recorder)
  {
    Extends(r.keystrokes, r.buffer)
  }

  /** Each event keeps the snapshot in agreement with the buffer, and the new
      snapshot keeps every entry of the old one in place. */
  lemma StepKeepsSnapshot(r: Recorder, e: KeyEvent)
    requires SnapshotAgrees(r)
    ensures SnapshotAgrees(Step(r, e).next)
    ensures Extends(r.keystrokes, Step(r, e).next.keystrokes)
  {
    var next := Step(r, e).next;
    StepExtendsBuffer(r, e);
    ExtendsTransitive(r.keystrokes, r.buffer, next.buffer);
  }

  /** Over any run the snapshot stays in agreement with the buffer and only grows. */
  lemma {:induction false} SnapshotOnlyGrows(r: Recorder, es: seq<KeyEvent>)
    requires SnapshotAgrees(r)
    ensures SnapshotAgrees(Run(r, es))
    ensures Extends(r.keystrokes, Run(r, es).keystrokes)
    decreases |es|
  {
    if es != [] {
      var r1 := Step(r, es[0]).next;
      StepKeepsSnapshot(r, es[0]);
      SnapshotOnlyGrows(r1, es[1..]);
      ExtendsTransitive(r.keystrokes, r1.keystrokes, Run(r1, es[1..]).keystrokes);
    }
  }

  /** Releases only: a snapshot whose entries are all released is handed over
      again, as a prefix, by every later Enter.  Nothing in the component
      clears the buffer, so an input that stays mounted across several
      submissions delivers each earlier submission again with the next one. */
  lemma EarlierSubmissionReappears(r: Recorder, es: seq<KeyEvent>)
    requires SnapshotAgrees(r)
    requires forall i :: 0 <= i < |r.keystrokes| ==> r.keystrokes[i].keyUpTime != 0.0
    ensures r.keystrokes <= Run(r, es).keystrokes
  {
    SnapshotOnlyGrows(r, es);
  }

  /** Typing "a" and Enter twice into one mounted input: the second Enter
      delivers two keystrokes, the first submission's and the second's. */
  lemma SecondSubmissionCarriesFirst()
    ensures Deliveries(Mounted, [Down("a", 1.0), Up("a", 2.0), Up(Enter, 3.0),
                                 Down("a", 4.0), Up("a", 5.0), Up(Enter, 6.0)])
         == [[KeystrokeData(1.0, 2.0, "a")],
             [KeystrokeData(1.0, 2.0, "a"), KeystrokeData(4.0, 5.0, "a")]]
  {
    var es := [Down("a", 1.0), Up("a", 2.0), Up(Enter, 3.0), Down("a", 4.0), Up("a", 5.0), Up(Enter, 6.0)];
    var a1 := KeystrokeData(1.0, 2.0, "a");
    var a2 := KeystrokeData(4.0, 5.0, "a");
    var r1 := KeyDown(Mounted, "a", 1.0);
    assert r1 == Recorder([KeystrokeData(1.0, 0.0, "a")], []);
    var r2 := KeyUp(r1, "a", 2.0).next;
    assert r2 == Recorder([a1], [a1]);
    var r3 := KeyDown(r2, "a", 4.0);
    assert r3 == Recorder([a1, KeystrokeData(4.0, 0.0, "a")], [a1]);
    assert !IsOpen(a1, "a") && IsOpen(r3.buffer[1], "a");
    assert FirstOpen(r3.buffer, "a") == Some(1);
    var r4 := KeyUp(r3, "a", 5.0).next;
    assert r4 == Recorder([a1, a2], [a1, a2]);
    assert Deliveries(r4, es[5..]) == [[a1, a2]];
    assert Deliveries(r3, es[4..]) == [[a1, a2]];
    assert Deliveries(r2, es[3..]) == [[a1, a2]];
    assert Deliveries(r2, es[2..]) == [[a1], [a1, a2]];
    assert Deliveries(r1, es[1..]) == [[a1], [a1, a2]];
  }

  // ---------------------------------------------------------------------------
  // Corrected recorder: one submission per Enter
  // ---------------------------------------------------------------------------

  /** Release handler that empties buffer and snapshot once Enter has handed
      the snapshot over, so that each delivery holds one submission only. */
  function KeyUpPerSubmission(r: Recorder, key: string, now: real): (h: Handled)
    ensures key == Enter ==> h == Handled(Mounted, Some(r.keystrokes))
    ensures key != Enter ==> h == KeyUp(r, key, now)
  {
    if key == Enter then Handled(Mounted, Some(r.keystrokes)) else KeyUp(r, key, now)
  }

  function StepPerSubmission(r: Recorder, e: KeyEvent): Handled
  {
    match e
    case Down(key, t) => Handled(KeyDown(r, key, t), None)
    case Up(key, t) => KeyUpPerSubmission(r, key, t)
  }

  function RunPerSubmission(r: Recorder, es: seq<KeyEvent>): Recorder
    decreases |es|
  {
    if es == [] then r else RunPerSubmission(StepPerSubmission(r, es[0]).next, es[1..])
  }

  lemma {:induction false} RunPerSubmissionAppend(r: Recorder, a: seq<KeyEvent>, b: seq<KeyEvent>)
    ensures RunPerSubmission(r, a + b) == RunPerSubmission(RunPerSubmission(r, a), b)
    decreases |a|
  {
    if a != [] {
      var r1 := StepPerSubmission(r, a[0]).next;
      assert (a + b)[0] == a[0];
      assert (a + b)[1..] == a[1..] + b;
      RunPerSubmissionAppend(r1, a[1..], b);
      calc {
        RunPerSubmission(r, a + b);
        RunPerSubmission(r1, a[1..] + b);
        RunPerSubmission(RunPerSubmission(r1, a[1..]), b);
        RunPerSubmission(RunPerSubmission(r, a), b);
      }
    } else {
      assert a + b == b;
    }
  }

  /** With the corrected handler, what a submission leaves for the next Enter
      does not depend on anything typed before the previous Enter. */
  lemma SubmissionsIndependent(r: Recorder, before: seq<KeyEvent>, t: real, after: seq<KeyEvent>)
    ensures RunPerSubmission(r, before + [Up(Enter, t)] + after) == RunPerSubmission(Mounted, after)
  {
    RunPerSubmissionAppend(r, before + [Up(Enter, t)], after);
    RunPerSubmissionAppend(r, before, [Up(Enter, t)]);
  }
}
