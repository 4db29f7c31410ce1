/**
 * Any number of goroutines inside WriteMsg of common/hlogger/file.go at once: check under the read
 * lock, recheck and rotate under the lock, write under the lock again, in every interleaving.
 */
module RotationRuns {
  import opened Wrappers
  import opened FileRotation

  /** A goroutine: outside WriteMsg, about to lock and recheck, or about to lock and write. */
  datatype Writer = Outside | Rechecking(msg: string, when: Date) | Writing(msg: string, when: Date)

  /** One write: its message and time, what of it reached the disk, and whether success was reported. */
  datatype Piece = Piece(msg: string, when: Date, landed: string, ok: bool)

  datatype State = State(
    file: File,
    writers: seq<Writer>,
    log: seq<Piece>,         // all writes, in order
    since: seq<Piece>,       // those since the last rotation
    rotated: bool            // the live file was opened by a rotation, and none has failed since
  )

  datatype Step =
    | Check(w: nat, msg: string, when: Date)
    | Recheck(w: nat, today: Date, c: Calls)
    | Write(w: nat, io: Outcome)
    | Daily(today: Date, c: Calls)

  // ------------------------------------------------------------------ the steps

  predicate Enabled(cfg: Config, maxLen: nat, s: State, a: Step) {
    match a
    case Check(w, msg, _) => w < |s.writers| && s.writers[w] == Outside && |msg| <= maxLen
    case Recheck(w, _, _) => w < |s.writers| && s.writers[w].Rechecking?
    case Write(w, _) => w < |s.writers| && s.writers[w].Writing?
    case Daily(_, _) => true
  }

  /** A rotation attempt under the lock, if one is needed. */
  function Attempt(cfg: Config, s: State, when: Date, today: Date, c: Calls): State {
    if !NeedRotate(cfg, s.file, when.day) then s
    else
      var (file, verdict) := Rotated(cfg, s.file, when, today, c);
      s.(file := file, rotated := verdict == Fine, since := if verdict == Fine then [] else s.since)
  }

  function Apply(cfg: Config, maxLen: nat, s: State, a: Step): State
    requires Enabled(cfg, maxLen, s, a)
  {
    match a
    case Check(w, msg, when) =>
      var due := cfg.rotate && NeedRotate(cfg, s.file, when.day);
      var next := if due then Rechecking(msg, when) else Writing(msg, when);
      s.(writers := s.writers[w := next])
    case Recheck(w, today, c) =>
      var s1 := Attempt(cfg, s, s.writers[w].when, today, c);
      s1.(writers := s1.writers[w := Writing(s.writers[w].msg, s.writers[w].when)])
    case Write(w, io) =>
      var msg := s.writers[w].msg;
      var (file, ok) := Written(s.file, msg, io);
      var piece := Piece(msg, s.writers[w].when, Landed(s.file, msg, io), ok);
      s.(file := file, writers := s.writers[w := Outside], log := s.log + [piece], since := s.since + [piece])
    case Daily(today, c) => Attempt(cfg, s, today, today, c)
  }

  // ------------------------------------------------------------------ nothing is lost

  /** What the writes left on the disk. */
  function Concat(ps: seq<Piece>): string {
    if ps == [] then "" else Concat(ps[..|ps| - 1]) + ps[|ps| - 1].landed
  }

  lemma ConcatSnoc(ps: seq<Piece>, p: Piece)
    ensures Concat(ps + [p]) == Concat(ps) + p.landed
  {
    assert (ps + [p])[..|ps|] == ps;
  }

  /** Reported writes left all of their message, failed ones at most its front. */
  predicate Honest(ps: seq<Piece>) {
    forall k :: 0 <= k < |ps| ==> ps[k].landed <= ps[k].msg && (ps[k].ok ==> ps[k].landed == ps[k].msg)
  }

  /** initial is what the live file held before the run. */
  predicate Kept(initial: string, s: State) {
    Good(s.file) && History(s.file) == initial + Concat(s.log) && Honest(s.log)
  }

  lemma AttemptKeeps(cfg: Config, s: State, when: Date, today: Date, c: Calls)
    requires Good(s.file)
    ensures Good(Attempt(cfg, s, when, today, c).file)
    ensures History(Attempt(cfg, s, when, today, c).file) == History(s.file)
    ensures Attempt(cfg, s, when, today, c).log == s.log
  {
    RotatedKeeps(cfg, s.file, when, today, c);
  }

  lemma KeptWrite(initial: string, s: State, msg: string, when: Date, io: Outcome)
    requires Kept(initial, s)
    ensures var (file, ok) := Written(s.file, msg, io);
            var log := s.log + [Piece(msg, when, Landed(s.file, msg, io), ok)];
            Good(file) && History(file) == initial + Concat(log) && Honest(log)
  {
    hide Written, Landed, Good, History;
    var t := Landed(s.file, msg, io);
    WrittenAppends(s.file, msg, io);
    ConcatSnoc(s.log, Piece(msg, when, t, Written(s.file, msg, io).1));
    assert initial + Concat(s.log) + t == initial + (Concat(s.log) + t);
  }

  lemma KeptStep(cfg: Config, maxLen: nat, initial: string, s: State, a: Step)
    requires Kept(initial, s) && Enabled(cfg, maxLen, s, a)
    ensures Kept(initial, Apply(cfg, maxLen, s, a))
  {
    hide NeedRotate, Rotated, Good, History, Landed, Written;
    match a {
      case Check(_, _, _) =>
      case Recheck(w, today, c) => AttemptKeeps(cfg, s, s.writers[w].when, today, c);
      case Write(w, io) =>
        KeptWrite(initial, s, s.writers[w].msg, s.writers[w].when, io);
      case Daily(today, c) => AttemptKeeps(cfg, s, today, today, c);
    }
  }

  // ------------------------------------------------------------------ the file stays bounded

  /** How many writers are past their check and not yet done writing. */
  function Pending(ws: seq<Writer>): nat {
    if ws == [] then 0 else (if ws[0].Writing? then 1 else 0) + Pending(ws[1..])
  }

  lemma {:induction false} PendingUpdate(ws: seq<Writer>, w: nat, x: Writer)
    requires w < |ws|
    ensures Pending(ws[w := x]) == Pending(ws) - (if ws[w].Writing? then 1 else 0) + (if x.Writing? then 1 else 0)
    ensures Pending(ws) <= |ws|
  {
    PendingBound(ws);
    if w > 0 {
      assert ws[w := x][1..] == ws[1..][w - 1 := x];
      PendingUpdate(ws[1..], w - 1, x);
    } else {
      assert ws[w := x][1..] == ws[1..];
    }
  }

  lemma {:induction false} PendingBound(ws: seq<Writer>)
    ensures Pending(ws) <= |ws|
  {
    if ws == [] {
    } else {
      PendingBound(ws[1..]);
    }
  }

  /** How many of the writes were reported as done. */
  function Whole(ps: seq<Piece>): nat {
    if ps == [] then 0 else Whole(ps[..|ps| - 1]) + (if ps[|ps| - 1].ok then 1 else 0)
  }

  /** The bytes that reported, or failed, writes left. */
  function Bytes(ps: seq<Piece>, ok: bool): nat {
    if ps == [] then 0
    else
      var p := ps[|ps| - 1];
      Bytes(ps[..|ps| - 1], ok) + (if p.ok == ok then |p.landed| else 0)
  }

  lemma PiecesSnoc(ps: seq<Piece>, p: Piece)
    ensures Concat(ps + [p]) == Concat(ps) + p.landed
    ensures Whole(ps + [p]) == Whole(ps) + (if p.ok then 1 else 0)
    ensures Bytes(ps + [p], true) == Bytes(ps, true) + (if p.ok then |p.landed| else 0)
  {
    assert (ps + [p])[..|ps|] == ps;
  }

  lemma {:induction false} BytesSplit(ps: seq<Piece>)
    ensures |Concat(ps)| == Bytes(ps, true) + Bytes(ps, false)
  {
    if ps == [] {
    } else {
      BytesSplit(ps[..|ps| - 1]);
    }
  }

  /** The counters of a file opened by rotation count exactly the reported writes since. */
  predicate Counted(s: State) {
    s.rotated ==>
      && s.file.live == Some(Concat(s.since)) && s.file.open
      && s.file.lines == Whole(s.since) && s.file.size == Bytes(s.since, true)
  }

  predicate Bounded(cfg: Config, maxLen: nat, s: State) {
    && (forall w :: 0 <= w < |s.writers| ==> s.writers[w].Writing? ==> |s.writers[w].msg| <= maxLen)
    && (forall w :: 0 <= w < |s.writers| ==> s.writers[w].Rechecking? ==> |s.writers[w].msg| <= maxLen)
    && (cfg.rotate && s.rotated && cfg.maxLines > 0 ==>
          s.file.lines + Pending(s.writers) <= cfg.maxLines - 1 + |s.writers|)
    && (cfg.rotate && s.rotated && cfg.maxSize > 0 ==>
          s.file.size + maxLen * Pending(s.writers) <= cfg.maxSize - 1 + |s.writers| * maxLen)
  }

  /** A writer that passed its check under the limits adds at most its own message. */
  lemma Admit(cfg: Config, maxLen: nat, file: File, ws: seq<Writer>, w: nat, x: Writer)
    requires w < |ws| && !ws[w].Writing?
    requires cfg.maxLines > 0 ==> file.lines < cfg.maxLines
    requires cfg.maxSize > 0 ==> file.size < cfg.maxSize
    ensures cfg.maxLines > 0 ==> file.lines + Pending(ws[w := x]) <= cfg.maxLines - 1 + |ws|
    ensures cfg.maxSize > 0 ==>
              file.size + maxLen * Pending(ws[w := x]) <= cfg.maxSize - 1 + |ws| * maxLen
  {
    PendingBound(ws[w := x]);
    Scale(maxLen, Pending(ws[w := x]), |ws|);
  }

  lemma Scale(n: nat, a: nat, b: nat)
    requires a <= b
    ensures n * a <= b * n
  {
    assert b * n == n * a + n * (b - a);
  }

  lemma CheckBounded(cfg: Config, maxLen: nat, s: State, a: Step)
    requires Counted(s) && Bounded(cfg, maxLen, s) && Enabled(cfg, maxLen, s, a) && a.Check?
    ensures Bounded(cfg, maxLen, Apply(cfg, maxLen, s, a)) && Counted(Apply(cfg, maxLen, s, a))
  {
    if !(cfg.rotate && NeedRotate(cfg, s.file, a.when.day)) {
      if cfg.rotate {
        Admit(cfg, maxLen, s.file, s.writers, a.w, Writing(a.msg, a.when));
      }
    } else {
      PendingUpdate(s.writers, a.w, Rechecking(a.msg, a.when));
    }
  }

  lemma RecheckBounded(cfg: Config, maxLen: nat, s: State, a: Step)
    requires Counted(s) && Bounded(cfg, maxLen, s) && Enabled(cfg, maxLen, s, a) && a.Recheck?
    ensures Bounded(cfg, maxLen, Apply(cfg, maxLen, s, a)) && Counted(Apply(cfg, maxLen, s, a))
  {
    var s1 := Attempt(cfg, s, s.writers[a.w].when, a.today, a.c);
    AttemptCounted(cfg, s, s.writers[a.w].when, a.today, a.c);
    hide Rotated;
    if s1.rotated {
      Admit(cfg, maxLen, s1.file, s.writers, a.w, Writing(s.writers[a.w].msg, s.writers[a.w].when));
    }
  }

  /** After the attempt a freshly rotated file is under the limits, and its counters are exact. */
  lemma AttemptCounted(cfg: Config, s: State, when: Date, today: Date, c: Calls)
    requires Counted(s)
    ensures var s1 := Attempt(cfg, s, when, today, c);
            && Counted(s1) && s1.writers == s.writers
            && (s1.rotated && cfg.maxLines > 0 ==> s1.file.lines < cfg.maxLines)
            && (s1.rotated && cfg.maxSize > 0 ==> s1.file.size < cfg.maxSize)
            && (NeedRotate(cfg, s.file, when.day) && s1.rotated ==> s1.file.lines == 0 && s1.file.size == 0)
            && (!NeedRotate(cfg, s.file, when.day) ==> s1 == s)
  {
    if NeedRotate(cfg, s.file, when.day) && Rotated(cfg, s.file, when, today, c).1 == Fine {
      FreshAfterRotation(cfg, s.file, when, today, c);
    }
  }

  lemma WriteCounted(cfg: Config, maxLen: nat, s: State, a: Step)
    requires Counted(s) && Enabled(cfg, maxLen, s, a) && a.Write?
    ensures Counted(Apply(cfg, maxLen, s, a))
  {
    var msg := s.writers[a.w].msg;
    PiecesSnoc(s.since, Piece(msg, s.writers[a.w].when, Landed(s.file, msg, a.io), Written(s.file, msg, a.io).1));
    hide Concat, Whole, Bytes;
  }

  lemma WriteBounded(cfg: Config, maxLen: nat, s: State, a: Step)
    requires Counted(s) && Bounded(cfg, maxLen, s) && Enabled(cfg, maxLen, s, a) && a.Write?
    ensures Bounded(cfg, maxLen, Apply(cfg, maxLen, s, a)) && Counted(Apply(cfg, maxLen, s, a))
  {
    WriteCounted(cfg, maxLen, s, a);
    hide Counted, Pending, Landed;
    PendingUpdate(s.writers, a.w, Outside);
    Less(maxLen, Pending(s.writers));
  }

  lemma Less(n: nat, p: int)
    ensures n * (p - 1) == n * p - n
  {
  }

  lemma DailyBounded(cfg: Config, maxLen: nat, s: State, a: Step)
    requires Counted(s) && Bounded(cfg, maxLen, s) && Enabled(cfg, maxLen, s, a) && a.Daily?
    ensures Bounded(cfg, maxLen, Apply(cfg, maxLen, s, a)) && Counted(Apply(cfg, maxLen, s, a))
  {
    AttemptCounted(cfg, s, a.today, a.today, a.c);
    hide Rotated;
    PendingBound(s.writers);
    Scale(maxLen, Pending(s.writers), |s.writers|);
  }

  // ------------------------------------------------------------------ runs

  predicate Initial(s: State) {
    && Good(s.file) && s.file.order == [] && s.log == [] && s.since == [] && !s.rotated
    && forall w :: 0 <= w < |s.writers| ==> s.writers[w] == Outside
  }

  predicate Run(cfg: Config, maxLen: nat, ss: seq<State>, acts: seq<Step>) {
    && |ss| == |acts| + 1
    && Initial(ss[0])
    && forall i :: 0 <= i < |acts| ==> Taken(cfg, maxLen, ss, acts, i)
  }

  predicate Taken(cfg: Config, maxLen: nat, ss: seq<State>, acts: seq<Step>, i: nat)
    requires i < |acts| && i + 1 < |ss|
  {
    Enabled(cfg, maxLen, ss[i], acts[i]) && ss[i + 1] == Apply(cfg, maxLen, ss[i], acts[i])
  }

  function InitialText(s: State): string {
    if s.file.live.Some? then s.file.live.value else ""
  }

  /**
   * In every reachable state the archives in rotation order followed by the live file are the initial
   * content followed by what the writes left, in order: whole messages where success was reported, at
   * most the front of a message where it was not, whatever calls failed.
   */
  lemma {:induction false} NothingLost(cfg: Config, maxLen: nat, ss: seq<State>, acts: seq<Step>, i: nat)
    requires Run(cfg, maxLen, ss, acts) && i < |ss|
    ensures Kept(InitialText(ss[0]), ss[i])
  {
    if i == 0 {
      assert "" + InitialText(ss[0]) == InitialText(ss[0]) == InitialText(ss[0]) + "";
    } else {
      NothingLost(cfg, maxLen, ss, acts, i - 1);
      assert Taken(cfg, maxLen, ss, acts, i - 1);
      KeptStep(cfg, maxLen, InitialText(ss[0]), ss[i - 1], acts[i - 1]);
    }
  }

  /** Archives are never changed once made, and archives that were there before never at all. */
  lemma {:induction false} ArchivesStay(cfg: Config, maxLen: nat, ss: seq<State>, acts: seq<Step>,
                                        i: nat, j: nat, n: Name)
    requires Run(cfg, maxLen, ss, acts) && i <= j < |ss| && n in ss[i].file.archives
    ensures n in ss[j].file.archives && ss[j].file.archives[n] == ss[i].file.archives[n]
    decreases j
  {
    if i == j {
    } else {
      ArchivesStay(cfg, maxLen, ss, acts, i, j - 1, n);
      NothingLost(cfg, maxLen, ss, acts, j - 1);
      assert Taken(cfg, maxLen, ss, acts, j - 1);
      assert Good(ss[j - 1].file);
      hide *;
      ArchivesTaken(cfg, maxLen, ss, acts, j - 1, n);
    }
  }

  lemma ArchivesTaken(cfg: Config, maxLen: nat, ss: seq<State>, acts: seq<Step>, i: nat, n: Name)
    requires i < |acts| && i + 1 < |ss| && Good(ss[i].file) && Taken(cfg, maxLen, ss, acts, i)
    requires n in ss[i].file.archives
    ensures n in ss[i + 1].file.archives && ss[i + 1].file.archives[n] == ss[i].file.archives[n]
  {
    hide Enabled, Apply, Good;
    ArchivesStep(cfg, maxLen, ss[i], acts[i], n);
  }

  lemma ArchivesStep(cfg: Config, maxLen: nat, s: State, a: Step, n: Name)
    requires Good(s.file) && Enabled(cfg, maxLen, s, a) && n in s.file.archives
    ensures n in Apply(cfg, maxLen, s, a).file.archives
    ensures Apply(cfg, maxLen, s, a).file.archives[n] == s.file.archives[n]
  {
    hide Rotated, NeedRotate;
    match a {
      case Recheck(w, today, c) => RotatedKeeps(cfg, s.file, s.writers[w].when, today, c);
      case Daily(today, c) => RotatedKeeps(cfg, s.file, today, today, c);
      case _ =>
    }
  }

  lemma {:induction false} RunBounded(cfg: Config, maxLen: nat, ss: seq<State>, acts: seq<Step>, i: nat)
    requires Run(cfg, maxLen, ss, acts) && i < |ss|
    ensures Counted(ss[i]) && Bounded(cfg, maxLen, ss[i]) && |ss[i].writers| == |ss[0].writers|
  {
    if i == 0 {
    } else {
      RunBounded(cfg, maxLen, ss, acts, i - 1);
      var s, a := ss[i - 1], acts[i - 1];
      assert Taken(cfg, maxLen, ss, acts, i - 1);
      match a {
        case Check(_, _, _) => CheckBounded(cfg, maxLen, s, a);
        case Recheck(_, _, _) => RecheckBounded(cfg, maxLen, s, a);
        case Write(_, _) => WriteBounded(cfg, maxLen, s, a);
        case Daily(_, _) => DailyBounded(cfg, maxLen, s, a);
      }
    }
  }

  /**
   * With N writers a file opened by rotation never holds more than MaxLines + N - 1 whole messages, nor
   * more than MaxSize - 1 + N * L bytes when messages have at most L, apart from the fronts that failed
   * writes left, as long as no rotation has failed on it.
   */
  lemma FileBound(cfg: Config, maxLen: nat, ss: seq<State>, acts: seq<Step>, i: nat)
    requires Run(cfg, maxLen, ss, acts) && i < |ss| && cfg.rotate && ss[i].rotated
    ensures ss[i].file.live == Some(Concat(ss[i].since))
    ensures cfg.maxLines > 0 ==> Whole(ss[i].since) <= cfg.maxLines + |ss[0].writers| - 1
    ensures cfg.maxSize > 0 ==>
              |Concat(ss[i].since)| <= cfg.maxSize - 1 + |ss[0].writers| * maxLen + Bytes(ss[i].since, false)
  {
    RunBounded(cfg, maxLen, ss, acts, i);
    BytesSplit(ss[i].since);
    assert maxLen * Pending(ss[i].writers) >= 0;
  }

  // ------------------------------------------------------------------ nobody has to wait

  /** Every goroutine can go on in every state, whatever the calls do, and the timer can fire at any time. */
  lemma Unblocked(cfg: Config, maxLen: nat, s: State, w: nat, msg: string, when: Date, c: Calls, io: Outcome)
    requires w < |s.writers| && |msg| <= maxLen
    ensures s.writers[w] == Outside ==> Enabled(cfg, maxLen, s, Check(w, msg, when))
    ensures s.writers[w].Rechecking? ==> Enabled(cfg, maxLen, s, Recheck(w, when, c))
    ensures s.writers[w].Writing? ==> Enabled(cfg, maxLen, s, Write(w, io))
    ensures Enabled(cfg, maxLen, s, Daily(when, c))
  {
  }

  /** A goroutine that is let in comes out again: it checks, rechecks at most once, and writes. */
  lemma ThreeSteps(cfg: Config, maxLen: nat, s: State, w: nat, msg: string, when: Date, today: Date, c: Calls,
                   io: Outcome)
    requires Enabled(cfg, maxLen, s, Check(w, msg, when))
    ensures var s1 := Apply(cfg, maxLen, s, Check(w, msg, when));
            var s2 := if s1.writers[w].Rechecking? then Apply(cfg, maxLen, s1, Recheck(w, today, c)) else s1;
            && Enabled(cfg, maxLen, s2, Write(w, io))
            && Apply(cfg, maxLen, s2, Write(w, io)).writers == s.writers
  {
    hide NeedRotate, Rotated, Written, Landed;
  }
}
