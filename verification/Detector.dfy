/**
 The failure detector of master.c over whole histories of one worker: report_heartbeat,
 detect_heart_failure, the reset that follows every relayed message and forgets the last beat,
 and the failures of handle_data that mark the worker dead.  Module Surveillance shows that
 every run of the master gives each worker's record such a history.
 */
module Detector {
  import opened Options
  import opened WireFormat

  const SILENCE: real := 3.0

  datatype Event =
    | Beat(at: real)
    | Scan(at: real)
    | Reset
    | Broken

  datatype Watch = Watch(alive: bool, lastBeat: real)

  /** The test of detect_heart_failure at time `now`. */
  predicate Suspects(w: Watch, now: real) {
    w.lastBeat > 0.0 && w.alive && now - w.lastBeat > SILENCE
  }

  function Step(w: Watch, e: Event): Watch {
    match e
    case Beat(t) => Watch(true, t)
    case Reset => w.(lastBeat := 0.0)
    case Broken => w.(alive := false)
    case Scan(t) => if Suspects(w, t) then w.(alive := false) else w
  }

  const FRESH := Watch(true, 0.0)

  /** The record after a history. */
  function After(history: seq<Event>): Watch {
    if history == [] then FRESH else Step(After(history[..|history| - 1]), history[|history| - 1])
  }

  predicate Timed(e: Event) {
    e.Beat? || e.Scan?
  }

  /** The clock readings come from a monotonic clock that has started. */
  ghost predicate Timely(history: seq<Event>) {
    && (forall i :: 0 <= i < |history| && Timed(history[i]) ==> history[i].at > 0.0)
    && (forall i, j :: 0 <= i < j < |history| && Timed(history[i]) && Timed(history[j]) ==>
          history[i].at <= history[j].at)
  }

  /** The scan at position k declares the worker dead. */
  ghost predicate Declares(history: seq<Event>, k: nat)
    requires k < |history|
  {
    history[k].Scan? && Suspects(After(history[..k]), history[k].at)
  }

  // ---------------------------------------------------------------------------
  // Accuracy
  // ---------------------------------------------------------------------------

  /** A beat at position i that no reset has wiped out since. */
  ghost predicate Remembered(history: seq<Event>, i: int) {
    && 0 <= i < |history| && history[i].Beat?
    && forall j :: i < j < |history| ==> !history[j].Reset?
  }

  /** The position of the last remembered beat. */
  function LastBeat(history: seq<Event>): (last: Option<nat>)
    ensures last.Some? ==> last.value < |history| && Remembered(history, last.value)
    ensures last.Some? ==> forall j :: last.value < j < |history| ==> !history[j].Beat?
    ensures last.None? ==> forall i :: !Remembered(history, i)
  {
    if history == [] then None
    else
      var n := |history| - 1;
      var before := history[..n];
      match history[n]
      case Beat(_) => Some(n)
      case Reset => None
      case _ =>
        var last := LastBeat(before);
        assert forall i :: Remembered(history, i) ==> Remembered(before, i);
        last
  }

  /** The time the record holds is the last remembered beat's, or zero when there is none. */
  lemma {:induction false} RecordIsLastBeat(history: seq<Event>)
    ensures After(history).lastBeat
         == match LastBeat(history) case None => 0.0 case Some(i) => history[i].at
  {
    if history != [] {
      RecordIsLastBeat(history[..|history| - 1]);
    }
  }

  /** Some beat is remembered, and every remembered beat is more than three seconds old. */
  ghost predicate OnlyOldBeats(history: seq<Event>, now: real) {
    && (exists i :: Remembered(history, i))
    && (forall i :: Remembered(history, i) ==> now - history[i].at > 3.0)
  }

  lemma OnlyOldBeatsIff(history: seq<Event>, now: real)
    requires Timely(history)
    ensures OnlyOldBeats(history, now) <==>
      LastBeat(history).Some? && now - history[LastBeat(history).value].at > 3.0
  {
    var last := LastBeat(history);
    if last.Some? {
      forall i | Remembered(history, i)
        ensures history[i].at <= history[last.value].at
      {
      }
    }
  }

  lemma PrefixTimely(history: seq<Event>, k: nat)
    requires Timely(history) && k <= |history|
    ensures Timely(history[..k])
  {
  }

  /**
   A scan declares a worker dead exactly when the worker is held alive, some beat is remembered,
   and every remembered beat is more than three seconds old.
   */
  lemma DeclaredIff(history: seq<Event>, k: nat)
    requires Timely(history) && k < |history| && history[k].Scan?
    ensures Declares(history, k) <==> After(history[..k]).alive && OnlyOldBeats(history[..k], history[k].at)
  {
    PrefixTimely(history, k);
    RecordIsLastBeat(history[..k]);
    OnlyOldBeatsIff(history[..k], history[k].at);
  }

  /** Each scan that comes after some beat finds one at most three seconds old. */
  ghost predicate RegularBeats(history: seq<Event>) {
    forall k, b :: 0 <= b < k < |history| && history[k].Scan? && history[b].Beat? ==>
      exists i :: 0 <= i < k && history[i].Beat? && history[k].at - history[i].at <= 3.0
  }

  lemma RegularNotDeclared(history: seq<Event>, k: nat)
    requires Timely(history) && RegularBeats(history) && k < |history|
    ensures !Declares(history, k)
  {
    if history[k].Scan? {
      RegularScanFindsBeat(history, k);
      DeclaredIff(history, k);
    }
  }

  /**
   A worker that beats often enough is never suspected, resets or not; only a failure of its
   connection can mark it dead.
   */
  lemma {:induction false} RegularWorkerStaysAlive(history: seq<Event>, n: nat)
    requires Timely(history) && RegularBeats(history) && n <= |history|
    ensures forall k :: 0 <= k < n ==> !Declares(history, k)
    ensures Broken !in history[..n] ==> After(history[..n]).alive
  {
    if n > 0 {
      RegularWorkerStaysAlive(history, n - 1);
      RegularNotDeclared(history, n - 1);
      assert history[..n][..n - 1] == history[..n - 1];
      assert Broken !in history[..n] ==> Broken !in history[..n - 1] && history[n - 1] != Broken;
    }
  }

  predicate NoBeatBetween(history: seq<Event>, b: int, c: int) {
    forall i :: b < i < c && 0 <= i < |history| ==> !history[i].Beat?
  }

  /** Two beats with none between them. */
  predicate Consecutive(history: seq<Event>, b: nat, c: nat)
    requires b < |history| && c < |history|
  {
    history[b].Beat? && history[c].Beat? && NoBeatBetween(history, b, c)
  }

  predicate LastBeatAt(history: seq<Event>, b: nat)
    requires b < |history|
  {
    history[b].Beat? && NoBeatBetween(history, b, |history|)
  }

  /**
   Each beat comes at most three seconds after the one before, and no scan comes later than
   three seconds after the last one.
   */
  ghost predicate Punctual(history: seq<Event>) {
    && (forall b, c :: 0 <= b < c < |history| && Consecutive(history, b, c) ==>
          history[c].at - history[b].at <= 3.0)
    && (forall b, k :: 0 <= b < k < |history| && LastBeatAt(history, b) && history[k].Scan? ==>
          history[k].at - history[b].at <= 3.0)
  }

  lemma {:induction false} LatestBeatBefore(history: seq<Event>, b: nat, k: nat) returns (i: nat)
    requires b < k <= |history| && history[b].Beat?
    ensures b <= i < k && history[i].Beat? && NoBeatBetween(history, i, k)
    decreases k
  {
    if history[k - 1].Beat? {
      i := k - 1;
    } else {
      i := LatestBeatBefore(history, b, k - 1);
    }
  }

  lemma {:induction false} NextBeatAfter(history: seq<Event>, k: nat) returns (c: nat)
    requires k <= |history|
    ensures k <= c <= |history| && NoBeatBetween(history, k - 1, c)
    ensures c < |history| ==> history[c].Beat?
    decreases |history| - k
  {
    if k == |history| || history[k].Beat? {
      c := k;
    } else {
      c := NextBeatAfter(history, k + 1);
    }
  }

  /** The last beat before a scan is a recent one. */
  lemma ScanIsInTime(history: seq<Event>, k: nat, b: nat) returns (i: nat)
    requires Timely(history) && Punctual(history)
    requires b < k < |history| && history[k].Scan? && history[b].Beat?
    ensures i < k && history[i].Beat? && history[k].at - history[i].at <= 3.0
  {
    i := LatestBeatBefore(history, b, k);
    var c := NextBeatAfter(history, k);
    BetweenIs(history, i, k, c);
    InTimeBetween(history, i, k, c);
  }

  lemma InTimeBetween(history: seq<Event>, i: nat, k: nat, c: nat)
    requires Timely(history) && Punctual(history)
    requires i < k <= c <= |history| && k < |history| && NoBeatBetween(history, i, c)
    requires history[i].Beat? && history[k].Scan? && (c < |history| ==> history[c].Beat?)
    ensures history[k].at - history[i].at <= 3.0
  {
    if c < |history| {
      assert Consecutive(history, i, c) && history[k].at <= history[c].at;
    } else {
      assert LastBeatAt(history, i);
    }
  }

  lemma BetweenIs(history: seq<Event>, i: nat, k: nat, c: nat)
    requires i < k <= c <= |history| && NoBeatBetween(history, i, k) && NoBeatBetween(history, k - 1, c)
    ensures NoBeatBetween(history, i, c)
  {
  }

  /** Beats that come in time are in time for every scan. */
  lemma PunctualIsRegular(history: seq<Event>)
    requires Timely(history) && Punctual(history)
    ensures RegularBeats(history)
  {
    forall k, b | 0 <= b < k < |history| && history[k].Scan? && history[b].Beat?
      ensures exists i :: 0 <= i < k && history[i].Beat? && history[k].at - history[i].at <= 3.0
    {
      var i := ScanIsInTime(history, k, b);
    }
  }

  lemma RegularScanFindsBeat(history: seq<Event>, k: nat)
    requires Timely(history) && RegularBeats(history) && k < |history| && history[k].Scan?
    ensures !OnlyOldBeats(history[..k], history[k].at)
  {
    var before := history[..k];
    var last := LastBeat(before);
    PrefixTimely(history, k);
    OnlyOldBeatsIff(before, history[k].at);
    if last.Some? {
      var b := last.value;
      assert history[b] == before[b];
      var i :| 0 <= i < k && history[i].Beat? && history[k].at - history[i].at <= 3.0;
      assert before[i] == history[i];
      assert i <= b;
    }
  }

  // ---------------------------------------------------------------------------
  // Completeness
  // ---------------------------------------------------------------------------

  /** From position b on there is a beat and then nothing but scans, at most `gap` apart. */
  ghost predicate SilentSince(history: seq<Event>, b: nat, gap: real) {
    && b < |history| && history[b].Beat?
    && (forall i :: b < i < |history| ==> history[i].Scan?)
    && (forall i :: b < i < |history| ==> history[i].at - history[i - 1].at <= gap)
  }

  lemma {:induction false} UndeclaredRecord(history: seq<Event>, b: nat, k: nat, gap: real)
    requires Timely(history) && SilentSince(history, b, gap) && b < k <= |history|
    requires forall j :: b < j < k ==> !Declares(history, j)
    ensures After(history[..k]) == Watch(true, history[b].at)
    decreases k
  {
    var before := history[..k];
    assert before[..k - 1] == history[..k - 1];
    if k > b + 1 {
      UndeclaredRecord(history, b, k - 1, gap);
      assert !Declares(history, k - 1);
    }
  }

  lemma {:induction false} DeadStaysDead(history: seq<Event>, k: nat, n: nat)
    requires k <= n <= |history| && !After(history[..k]).alive
    requires forall i :: k <= i < n ==> history[i].Scan?
    ensures !After(history[..n]).alive
  {
    if k < n {
      DeadStaysDead(history, k, n - 1);
      assert history[..n][..n - 1] == history[..n - 1];
    }
  }

  /**
   A worker that falls silent, with no reset, is declared dead no later than its last beat plus
   three seconds plus the largest gap between scans, once the scans reach past the three seconds.
   */
  lemma SilentWorkerIsDeclared(history: seq<Event>, b: nat, gap: real)
    requires Timely(history) && SilentSince(history, b, gap)
    requires history[|history| - 1].at > history[b].at + 3.0
    ensures exists k :: b < k < |history| && Declares(history, k) && history[k].at <= history[b].at + 3.0 + gap
    ensures !After(history).alive
  {
    var last := FirstLate(history, b, |history| - 1, gap);
    var k := DeclaredBy(history, b, last, gap);
    DeadOnceDeclared(history, b, gap, k);
  }

  lemma DeadOnceDeclared(history: seq<Event>, b: nat, gap: real, k: nat)
    requires SilentSince(history, b, gap) && b < k < |history| && Declares(history, k)
    ensures !After(history).alive
  {
    assert history[..k + 1][..k] == history[..k];
    DeadStaysDead(history, k + 1, |history|);
    assert history[..|history|] == history;
  }

  lemma DeclaredBy(history: seq<Event>, b: nat, last: nat, gap: real) returns (k: nat)
    requires Timely(history) && SilentSince(history, b, gap) && b < last < |history|
    requires history[last].at > history[b].at + 3.0 && history[last - 1].at <= history[b].at + 3.0
    ensures b < k <= last && Declares(history, k) && history[k].at <= history[b].at + 3.0 + gap
  {
    assert history[last].at - history[last - 1].at <= gap;
    if forall j :: b < j < last ==> !Declares(history, j) {
      UndeclaredRecord(history, b, last, gap);
      k := last;
    } else {
      k :| b < k < last && Declares(history, k);
      assert history[k].at - history[k - 1].at <= gap && history[k - 1].at <= history[k].at;
      assert history[k].at <= history[last - 1].at;
    }
  }

  lemma {:induction false} FirstLate(history: seq<Event>, b: nat, last: nat, gap: real) returns (k: nat)
    requires Timely(history) && SilentSince(history, b, gap) && b <= last < |history|
    requires history[last].at > history[b].at + 3.0
    ensures b < k <= last && history[k].at > history[b].at + 3.0
    ensures history[k - 1].at <= history[b].at + 3.0
  {
    if history[last - 1].at <= history[b].at + 3.0 {
      k := last;
    } else {
      k := FirstLate(history, b, last - 1, gap);
    }
  }
}
