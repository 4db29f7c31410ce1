/** Which messages a daily file holds: what was asked for, and of which days. */
module RotationDays {
  import opened Wrappers
  import opened FileRotation
  import opened RotationRuns

  // ------------------------------------------------------------------ what was asked for

  /** The message that goroutine w was last asked to write before step k. */
  function LastCheck(acts: seq<Step>, w: nat, k: nat): Option<(string, Date)>
    requires k <= |acts|
    decreases k
  {
    if k == 0 then None
    else
      match acts[k - 1]
      case Check(v, msg, when) => if v == w then Some((msg, when)) else LastCheck(acts, w, k - 1)
      case _ => LastCheck(acts, w, k - 1)
  }

  /** For every write before step i, the message it was asked to write. */
  function Asked(acts: seq<Step>, i: nat): seq<(string, Date)>
    requires i <= |acts|
    decreases i
  {
    if i == 0 then []
    else
      match acts[i - 1]
      case Write(w, _) =>
        (match LastCheck(acts, w, i - 1)
         case Some(m) => Asked(acts, i - 1) + [m]
         case None => Asked(acts, i - 1))
      case _ => Asked(acts, i - 1)
  }

  function Messages(ps: seq<Piece>): seq<(string, Date)> {
    if ps == [] then [] else Messages(ps[..|ps| - 1]) + [(ps[|ps| - 1].msg, ps[|ps| - 1].when)]
  }

  lemma MessagesSnoc(ps: seq<Piece>, p: Piece)
    ensures Messages(ps + [p]) == Messages(ps) + [(p.msg, p.when)]
  {
    assert (ps + [p])[..|ps|] == ps;
  }

  /** Every goroutine inside WriteMsg carries what it was asked to write. */
  predicate Carrying(s: State, acts: seq<Step>, i: nat)
    requires i <= |acts|
  {
    forall w :: 0 <= w < |s.writers| && s.writers[w] != Outside ==>
                  LastCheck(acts, w, i) == Some((s.writers[w].msg, s.writers[w].when))
  }

  lemma {:induction false} LogIsAsked(cfg: Config, maxLen: nat, ss: seq<State>, acts: seq<Step>, i: nat)
    requires Run(cfg, maxLen, ss, acts) && i < |ss|
    ensures Carrying(ss[i], acts, i) && Messages(ss[i].log) == Asked(acts, i)
  {
    if i == 0 {
    } else {
      LogIsAsked(cfg, maxLen, ss, acts, i - 1);
      assert Taken(cfg, maxLen, ss, acts, i - 1);
      AskedStep(cfg, maxLen, ss[i - 1], acts, i - 1);
    }
  }

  lemma AskedStep(cfg: Config, maxLen: nat, s: State, acts: seq<Step>, i: nat)
    requires i < |acts| && Enabled(cfg, maxLen, s, acts[i])
    requires Carrying(s, acts, i) && Messages(s.log) == Asked(acts, i)
    ensures Carrying(Apply(cfg, maxLen, s, acts[i]), acts, i + 1)
    ensures Messages(Apply(cfg, maxLen, s, acts[i]).log) == Asked(acts, i + 1)
  {
    hide NeedRotate, Rotated, Written, Landed, Messages;
    match acts[i] {
      case Check(_, _, _) =>
      case Recheck(_, _, _) =>
      case Write(w, io) =>
        var msg := s.writers[w].msg;
        MessagesSnoc(s.log, Piece(msg, s.writers[w].when, Landed(s.file, msg, io), Written(s.file, msg, io).1));
      case Daily(_, _) =>
    }
  }

  // ------------------------------------------------------------------ messages of other days

  /** How many of the writes are of another day. */
  function Strays(ps: seq<Piece>, day: int): nat {
    if ps == [] then 0 else Strays(ps[..|ps| - 1], day) + (if ps[|ps| - 1].when.day != day then 1 else 0)
  }

  predicate Stray(w: Writer, day: int) {
    w.Writing? && w.when.day != day
  }

  function StraysPending(ws: seq<Writer>, day: int): (r: nat)
    ensures r <= |ws|
  {
    if ws == [] then 0 else (if Stray(ws[0], day) then 1 else 0) + StraysPending(ws[1..], day)
  }

  lemma {:induction false} StraysUpdate(ws: seq<Writer>, w: nat, x: Writer, day: int)
    requires w < |ws|
    ensures StraysPending(ws[w := x], day)
         == StraysPending(ws, day) - (if Stray(ws[w], day) then 1 else 0) + (if Stray(x, day) then 1 else 0)
  {
    if w == 0 {
      assert ws[w := x][1..] == ws[1..];
    } else {
      assert ws[w := x][1..] == ws[1..][w - 1 := x];
      StraysUpdate(ws[1..], w - 1, x, day);
    }
  }

  predicate DayBounded(cfg: Config, s: State) {
    cfg.rotate && cfg.daily && s.rotated ==>
      Strays(s.since, s.file.openDate.day) + StraysPending(s.writers, s.file.openDate.day) <= |s.writers|
  }

  /** An attempt leaves the state as it is, on its own day, or starts a new file, or fails. */
  lemma AttemptDays(cfg: Config, s: State, when: Date, today: Date, c: Calls)
    ensures var s1 := Attempt(cfg, s, when, today, c);
            && s1.writers == s.writers
            && (|| (s1 == s && (cfg.daily ==> when.day == s.file.openDate.day))
                || (s1.rotated && s1.since == [] && s1.file.openDate == today)
                || !s1.rotated)
  {
    RotationVerdict(cfg, s.file, when, today, c);
    if Rotated(cfg, s.file, when, today, c).1 == Fine {
      FreshDate(cfg, s.file, when, today, c);
    }
    hide Rotated;
  }

  lemma FreshDate(cfg: Config, f: File, when: Date, today: Date, c: Calls)
    requires Rotated(cfg, f, when, today, c).1 == Fine
    ensures Rotated(cfg, f, when, today, c).0.openDate == today
  {
  }

  lemma DayStep(cfg: Config, maxLen: nat, s: State, a: Step)
    requires DayBounded(cfg, s) && Enabled(cfg, maxLen, s, a)
    ensures DayBounded(cfg, Apply(cfg, maxLen, s, a)) && |Apply(cfg, maxLen, s, a).writers| == |s.writers|
  {
    var day := s.file.openDate.day;
    match a {
      case Check(w, msg, when) =>
        StraysUpdate(s.writers, w, Rechecking(msg, when), day);
        StraysUpdate(s.writers, w, Writing(msg, when), day);
      case Recheck(w, today, c) =>
        AttemptDays(cfg, s, s.writers[w].when, today, c);
        StraysUpdate(s.writers, w, Writing(s.writers[w].msg, s.writers[w].when), day);
        hide Attempt, StraysPending;
        assert Strays([], today.day) == 0;
      case Write(w, io) =>
        StraysUpdate(s.writers, w, Outside, day);
        var msg := s.writers[w].msg;
        StraysSnoc(s.since, Piece(msg, s.writers[w].when, Landed(s.file, msg, io), Written(s.file, msg, io).1), day);
        hide Strays, StraysPending;
      case Daily(today, c) =>
        AttemptDays(cfg, s, today, today, c);
        hide Attempt, StraysPending;
        assert Strays([], today.day) == 0;
    }
  }

  lemma StraysSnoc(ps: seq<Piece>, p: Piece, day: int)
    ensures Strays(ps + [p], day) == Strays(ps, day) + (if p.when.day != day then 1 else 0)
  {
    assert (ps + [p])[..|ps|] == ps;
  }

  lemma {:induction false} RunDays(cfg: Config, maxLen: nat, ss: seq<State>, acts: seq<Step>, i: nat)
    requires Run(cfg, maxLen, ss, acts) && i < |ss|
    ensures DayBounded(cfg, ss[i]) && |ss[i].writers| == |ss[0].writers|
  {
    if i == 0 {
    } else {
      RunDays(cfg, maxLen, ss, acts, i - 1);
      assert Taken(cfg, maxLen, ss, acts, i - 1);
      hide Apply, Enabled, DayBounded, Run;
      DayStep(cfg, maxLen, ss[i - 1], acts[i - 1]);
    }
  }

  /**
   * With N writers a daily file opened by rotation holds at most N messages of another day of the month
   * than the one it was opened on.
   */
  lemma DayBound(cfg: Config, maxLen: nat, ss: seq<State>, acts: seq<Step>, i: nat)
    requires Run(cfg, maxLen, ss, acts) && i < |ss| && cfg.rotate && cfg.daily && ss[i].rotated
    ensures ss[i].file.live == Some(Concat(ss[i].since))
    ensures Strays(ss[i].since, ss[i].file.openDate.day) <= |ss[0].writers|
  {
    RunDays(cfg, maxLen, ss, acts, i);
    RunBounded(cfg, maxLen, ss, acts, i);
  }

  // ------------------------------------------------------------------ one writer

  /** The clock agrees with the message when a file is rotated for it, and the timer never fires. */
  predicate Punctual(ss: seq<State>, acts: seq<Step>) {
    |ss| == |acts| + 1 &&
    forall k :: 0 <= k < |acts| ==>
                  && !acts[k].Daily?
                  && (acts[k].Recheck? ==>
                        && acts[k].w < |ss[k].writers| && ss[k].writers[acts[k].w].Rechecking?
                        && acts[k].today.day == ss[k].writers[acts[k].w].when.day)
  }

  predicate SameDay(s: State) {
    s.rotated ==>
      && (forall k :: 0 <= k < |s.since| ==> s.since[k].when.day == s.file.openDate.day)
      && (forall w :: 0 <= w < |s.writers| ==> !Stray(s.writers[w], s.file.openDate.day))
  }

  lemma SameDayStep(cfg: Config, maxLen: nat, s: State, a: Step)
    requires cfg.rotate && cfg.daily && |s.writers| == 1 && SameDay(s) && Enabled(cfg, maxLen, s, a) && !a.Daily?
    requires a.Recheck? ==> a.today.day == s.writers[a.w].when.day
    ensures SameDay(Apply(cfg, maxLen, s, a)) && |Apply(cfg, maxLen, s, a).writers| == 1
  {
    match a {
      case Check(_, _, _) =>
      case Recheck(w, today, c) =>
        AttemptDays(cfg, s, s.writers[w].when, today, c);
        hide Attempt;
      case Write(_, _) =>
    }
  }

  /** A lone punctual writer keeps every daily file to the messages of one day of the month. */
  lemma {:induction false} OneDay(cfg: Config, maxLen: nat, ss: seq<State>, acts: seq<Step>, i: nat)
    requires Run(cfg, maxLen, ss, acts) && i < |ss| && cfg.rotate && cfg.daily
    requires |ss[0].writers| == 1 && Punctual(ss, acts)
    ensures SameDay(ss[i]) && |ss[i].writers| == 1
  {
    if i == 0 {
    } else {
      OneDay(cfg, maxLen, ss, acts, i - 1);
      assert Taken(cfg, maxLen, ss, acts, i - 1);
      hide Apply, Enabled, SameDay, Run;
      SameDayStep(cfg, maxLen, ss[i - 1], acts[i - 1]);
    }
  }

  // ------------------------------------------------------------------ two writers

  const DAILY := Config(0, 0, true, true)
  const ALL_OK := Calls(true, true, true, true, true, true)
  const MON := Date(1, 1)
  const TUE := Date(1, 2)

  const START := State(File(Some(""), map[], true, 0, 0, MON, []), [Outside, Outside], [], [], false)
  const ROTATED_FILE := File(Some(""), map[Name(MON, 0) := ""], true, 0, 0, TUE, [Name(MON, 0)])
  const PIECE_A := Piece("a", MON, "a", true)
  const PIECE_B := Piece("b", TUE, "b", true)

  /** The states of the run below. */
  const MIXED_STATES := [
    START,
    START.(writers := [Writing("a", MON), Outside]),
    START.(writers := [Writing("a", MON), Rechecking("b", TUE)]),
    State(ROTATED_FILE, [Writing("a", MON), Writing("b", TUE)], [], [], true),
    State(ROTATED_FILE.(live := Some("b"), lines := 1, size := 1),
          [Writing("a", MON), Outside], [PIECE_B], [PIECE_B], true),
    State(ROTATED_FILE.(live := Some("ba"), lines := 2, size := 2),
          [Outside, Outside], [PIECE_B, PIECE_A], [PIECE_B, PIECE_A], true)
  ]

  const MIXED_STEPS :=
    [Check(0, "a", MON), Check(1, "b", TUE), Recheck(1, TUE, ALL_OK), Write(1, Success), Write(0, Success)]

  lemma MixedStep(i: nat)
    requires i < 5
    ensures Taken(DAILY, 1, MIXED_STATES, MIXED_STEPS, i)
  {
    var s, s' := MIXED_STATES[i], MIXED_STATES[i + 1];
    if i == 2 {
      RotatesEmpty(START.file);
      assert s.writers[1 := Writing("b", TUE)] == s'.writers;
    } else if i == 3 {
      Writes(s, 1);
      assert "" + "b" == "b" && [] + [PIECE_B] == [PIECE_B] && s.writers[1 := Outside] == s'.writers;
    } else if i == 4 {
      Writes(s, 0);
      assert "b" + "a" == "ba" && [PIECE_B] + [PIECE_A] == [PIECE_B, PIECE_A];
      assert s.writers[0 := Outside] == s'.writers;
    }
  }

  /**
   * With two writers a file can hold two days, even when every clock agrees: one checks on the first
   * day and writes after the other has rotated on the second.
   */
  lemma DaysMix()
    ensures Run(DAILY, 1, MIXED_STATES, MIXED_STEPS) && Punctual(MIXED_STATES, MIXED_STEPS)
    ensures var s := MIXED_STATES[5];
            && s.rotated && s.file.live == Some("ba") && s.file.openDate == TUE
            && Messages(s.since) == [("b", TUE), ("a", MON)]
  {
    forall i | 0 <= i < 5
      ensures Taken(DAILY, 1, MIXED_STATES, MIXED_STEPS, i)
    {
      MixedStep(i);
    }
    hide Taken;
    MessagesSnoc([], PIECE_B);
    MessagesSnoc([PIECE_B], PIECE_A);
    assert [] + [PIECE_B] == [PIECE_B] && [PIECE_B] + [PIECE_A] == [PIECE_B, PIECE_A];
  }

  lemma Writes(s: State, w: nat)
    requires w < |s.writers| && s.writers[w].Writing? && s.file.open && s.file.live.Some?
    ensures var m, when := s.writers[w].msg, s.writers[w].when;
            var p := Piece(m, when, m, true);
            Apply(DAILY, 1, s, Write(w, Success))
            == State(s.file.(live := Some(s.file.live.value + m), lines := s.file.lines + 1, size := s.file.size + |m|),
                     s.writers[w := Outside], s.log + [p], s.since + [p], s.rotated)
  {
  }

  lemma RotatesEmpty(f: File)
    requires f == File(Some(""), map[], true, 0, 0, MON, [])
    ensures Rotated(DAILY, f, TUE, TUE, ALL_OK)
         == (File(Some(""), map[Name(MON, 0) := ""], true, 0, 0, TUE, [Name(MON, 0)]), Fine)
  {
    var name := Name(MON, 0);
    assert FreeName(DAILY, f, TUE) == Some(name);
    var closed := f.(open := false);
    assert closed.archives[name := ""] == map[name := ""] && closed.order + [name] == [name];
    assert Renamed(closed, name) == File(None, map[name := ""], false, 0, 0, MON, [name]);
  }
}
