/** The rotating file writer of common/hlogger/file.go: one writer's methods and the disk they act on. */
module FileRotation {
  import opened Wrappers

  /** A calendar date; needRotate looks only at the day of the month. */
  datatype Date = Date(month: int, day: int)

  /** An archive name: the date and the number in it, 0 when it has none. */
  datatype Name = Name(date: Date, num: nat)

  datatype Config = Config(maxLines: int, maxSize: int, daily: bool, rotate: bool)

  /** The disk, the writer's counters and, in rotation order, the archives it has made. */
  datatype File = File(
    live: Option<string>,
    archives: map<Name, string>,
    open: bool,
    lines: int,
    size: int,
    openDate: Date,
    order: seq<Name>
  )

  /** Which system calls of one rotation succeed. */
  datatype Calls = Calls(lstat: bool, rename: bool, chmod: bool, open: bool, stat: bool, count: bool)

  datatype Verdict = Fine | NoFreeName | StartFailed | RotateFailed

  const LAST_NUMBER: nat := 999

  // ------------------------------------------------------------------ specification

  predicate NeedRotate(cfg: Config, f: File, day: int) {
    || (cfg.maxLines > 0 && f.lines >= cfg.maxLines)
    || (cfg.maxSize > 0 && f.size >= cfg.maxSize)
    || (cfg.daily && day != f.openDate.day)
  }

  function Newlines(s: string): nat {
    if s == [] then 0 else (if s[0] == '\n' then 1 else 0) + Newlines(s[1..])
  }

  /** The first number from num on whose archive name is free. */
  function FirstFree(archives: map<Name, string>, date: Date, num: nat): (r: Option<Name>)
    ensures r.Some? ==> r.value !in archives && r.value.date == date && num <= r.value.num <= LAST_NUMBER
    ensures r.Some? ==> forall n :: num <= n < r.value.num ==> Name(date, n) in archives
    ensures r.None? ==> forall n :: num <= n <= LAST_NUMBER ==> Name(date, n) in archives
    decreases LAST_NUMBER + 1 - num
  {
    if num > LAST_NUMBER then None
    else if Name(date, num) !in archives then Some(Name(date, num))
    else FirstFree(archives, date, num + 1)
  }

  /** The name the live file is moved to: numbered, or by date alone when only days count. */
  function FreeName(cfg: Config, f: File, logDate: Date): (r: Option<Name>)
    ensures r.Some? ==> r.value !in f.archives
  {
    if cfg.maxLines > 0 || cfg.maxSize > 0 then FirstFree(f.archives, logDate, 1)
    else if Name(f.openDate, 0) !in f.archives then Some(Name(f.openDate, 0))
    else FirstFree(f.archives, f.openDate, 1)
  }

  /** startLogger: reopen the live file for appending, creating it if need be, and reset the counters. */
  function Started(f: File, today: Date, c: Calls): (File, bool) {
    if !c.open then (f, false)
    else
      var text := if f.live.Some? then f.live.value else "";
      var f1 := f.(live := Some(text), open := true);
      if !c.stat then (f1, false)
      else
        var f2 := f1.(size := |text|, openDate := today, lines := 0);
        if |text| == 0 then (f2, true)
        else if !c.count then (f2, false)
        else (f2.(lines := Newlines(text)), true)
  }

  /** os.Rename: the target is replaced if it exists. */
  function Renamed(f: File, name: Name): File
    requires f.live.Some?
  {
    f.(live := None, archives := f.archives[name := f.live.value], order := f.order + [name])
  }

  /** doRotate. */
  function Rotated(cfg: Config, f: File, logDate: Date, today: Date, c: Calls): (File, Verdict) {
    if !c.lstat || f.live.None? then
      var (f1, ok) := Started(f, today, c);
      (f1, if ok then RotateFailed else StartFailed)
    else
      match FreeName(cfg, f, logDate)
      case None => (f, NoFreeName)
      case Some(name) =>
        var closed := f.(open := false);
        var (f1, ok) := Started(if c.rename then Renamed(closed, name) else closed, today, c);
        (f1, if !ok then StartFailed else if c.rename && c.chmod then Fine else RotateFailed)
  }

  /** The guarded rotation under the lock. */
  function Rechecked(cfg: Config, f: File, when: Date, today: Date, c: Calls): File {
    if NeedRotate(cfg, f, when.day) then Rotated(cfg, f, when, today, c).0 else f
  }

  /** How a write ends: all of the message is on the disk, or at most put bytes are, and an error. */
  datatype Outcome = Success | Failure(put: nat)

  /** What of the message reaches the disk; nothing on a closed file. */
  function Landed(f: File, msg: string, io: Outcome): (r: string)
    ensures r <= msg
  {
    if !f.open || f.live.None? then ""
    else if io.Success? || io.put >= |msg| then msg
    else msg[..io.put]
  }

  /** The write under the lock; the counters count only writes without an error. */
  function Written(f: File, msg: string, io: Outcome): (File, bool) {
    if !f.open || f.live.None? then (f, false)
    else
      var f1 := f.(live := Some(f.live.value + Landed(f, msg, io)));
      if io.Success? then (f1.(lines := f.lines + 1, size := f.size + |msg|), true) else (f1, false)
  }

  /** WriteMsg of a lone writer: the guarded rotation, then the write. */
  function WroteMsg(cfg: Config, f: File, when: Date, msg: string, today: Date, c: Calls, io: Outcome): (File, bool) {
    Written(if cfg.rotate then Rechecked(cfg, f, when, today, c) else f, msg, io)
  }

  // ------------------------------------------------------------------ the writer

  class FileLogWriter {
    const cfg: Config
    var live: Option<string>
    var archives: map<Name, string>
    var isOpen: bool
    var maxLinesCurLines: int
    var maxSizeCurSize: int
    var dailyOpen: Date
    ghost var order: seq<Name>

    ghost function Contents(): File
      reads this
    {
      File(live, archives, isOpen, maxLinesCurLines, maxSizeCurSize, dailyOpen, order)
    }

    /** A writer over a disk that may already hold a live file and archives; nothing opened yet. */
    constructor (cfg: Config, live: Option<string>, archives: map<Name, string>, today: Date)
      ensures this.cfg == cfg && Contents() == File(live, archives, false, 0, 0, today, [])
      ensures Good(Contents())
    {
      this.cfg, this.live, this.archives := cfg, live, archives;
      isOpen, maxLinesCurLines, maxSizeCurSize, dailyOpen, order := false, 0, 0, today, [];
    }

    method NeedsRotation(day: int) returns (r: bool)
      ensures r == NeedRotate(cfg, Contents(), day)
    {
      r := (cfg.maxLines > 0 && maxLinesCurLines >= cfg.maxLines) ||
      (cfg.maxSize > 0 && maxSizeCurSize >= cfg.maxSize) ||
      (cfg.daily && day != dailyOpen.day);
    }

    method CountLines(text: string) returns (count: nat)
      ensures count == Newlines(text)
    {
      count := 0;
      for i := 0 to |text|
        invariant Newlines(text) == count + Newlines(text[i..])
      {
        assert text[i..][1..] == text[i + 1..];
        if text[i] == '\n' {
          count := count + 1;
        }
      }
    }

    method InitFd(today: Date, c: Calls) returns (ok: bool)
      requires live.Some? && isOpen
      modifies this
      ensures (Contents(), ok) == Started(old(Contents()), today, c.(open := true))
    {
      if !c.stat {
        return false;
      }
      maxSizeCurSize := |live.value|;
      dailyOpen := today;
      maxLinesCurLines := 0;
      if |live.value| > 0 {
        if !c.count {
          return false;
        }
        maxLinesCurLines := CountLines(live.value);
      }
      return true;
    }

    method StartLogger(today: Date, c: Calls) returns (ok: bool)
      modifies this
      ensures (Contents(), ok) == Started(old(Contents()), today, c)
    {
      if !c.open {
        return false;
      }
      if live.None? {
        live := Some("");
      }
      isOpen := true;
      ok := InitFd(today, c);
    }

    /** The loop over numbered names. */
    method FindNumber(date: Date) returns (r: Option<Name>)
      ensures r == FirstFree(archives, date, 1)
    {
      var num := 1;
      while num <= LAST_NUMBER
        invariant 1 <= num <= LAST_NUMBER + 1
        invariant FirstFree(archives, date, 1) == FirstFree(archives, date, num)
        decreases LAST_NUMBER - num
      {
        var fName := Name(date, num);
        if fName !in archives {
          return Some(fName);
        }
        num := num + 1;
      }
      return None;
    }

    method DoRotate(logDate: Date, today: Date, c: Calls) returns (v: Verdict)
      modifies this
      ensures (Contents(), v) == Rotated(cfg, old(Contents()), logDate, today, c)
    {
      var started;
      if !c.lstat || live.None? {
        started := StartLogger(today, c);
        return if started then RotateFailed else StartFailed;
      }
      var name;
      if cfg.maxLines > 0 || cfg.maxSize > 0 {
        name := FindNumber(logDate);
      } else if Name(dailyOpen, 0) !in archives {
        name := Some(Name(dailyOpen, 0));
      } else {
        name := FindNumber(dailyOpen);
      }
      if name.None? {
        return NoFreeName;
      }
      isOpen := false;
      if c.rename {
        archives := archives[name.value := live.value];
        live := None;
        order := order + [name.value];
      }
      started := StartLogger(today, c);
      return if !started then StartFailed else if c.rename && c.chmod then Fine else RotateFailed;
    }

    /** WriteMsg of a message that passes the level, when no other goroutine interferes. */
    method WriteMsg(when: Date, msg: string, today: Date, c: Calls, io: Outcome) returns (ok: bool)
      modifies this
      ensures (Contents(), ok) == WroteMsg(cfg, old(Contents()), when, msg, today, c, io)
    {
      if cfg.rotate {
        var need := NeedsRotation(when.day);
        if need {
          need := NeedsRotation(when.day);
          if need {
            var v := DoRotate(when, today, c);
          }
        }
      }
      if !isOpen || live.None? {
        return false;
      }
      if io.Failure? {
        live := Some(live.value + (if io.put < |msg| then msg[..io.put] else msg));
        return false;
      }
      live := Some(live.value + msg);
      maxLinesCurLines := maxLinesCurLines + 1;
      maxSizeCurSize := maxSizeCurSize + |msg|;
      return true;
    }
  }

  // ------------------------------------------------------------------ nothing is lost or overwritten

  /** The archives of the run in rotation order, then the live file. */
  function History(f: File): string
    requires Good(f)
  {
    Archived(f.archives, f.order) + (if f.live.Some? then f.live.value else "")
  }

  function Archived(archives: map<Name, string>, order: seq<Name>): string
    requires forall k :: 0 <= k < |order| ==> order[k] in archives
  {
    if order == [] then "" else archives[order[0]] + Archived(archives, order[1..])
  }

  /** Archives of the run exist and are distinct; an open file is the live file. */
  predicate Good(f: File) {
    && (forall k :: 0 <= k < |f.order| ==> f.order[k] in f.archives)
    && (forall j, k :: 0 <= j < k < |f.order| ==> f.order[j] != f.order[k])
    && (f.open ==> f.live.Some?)
  }

  lemma {:induction false} ArchivedSnoc(archives: map<Name, string>, order: seq<Name>, name: Name, text: string)
    requires forall k :: 0 <= k < |order| ==> order[k] in archives && order[k] != name
    ensures Archived(archives[name := text], order + [name]) == Archived(archives, order) + text
    decreases |order|
  {
    if order == [] {
      assert order + [name] == [name];
    } else {
      assert (order + [name])[1..] == order[1..] + [name];
      ArchivedSnoc(archives, order[1..], name, text);
    }
  }

  lemma StartedKeeps(f: File, today: Date, c: Calls)
    requires Good(f)
    ensures Good(Started(f, today, c).0) && History(Started(f, today, c).0) == History(f)
    ensures Started(f, today, c).0.archives == f.archives && Started(f, today, c).0.order == f.order
  {
  }

  /**
   * A rotation, whatever fails in it, leaves the history as it was and every archive untouched.
   */
  lemma RotatedKeeps(cfg: Config, f: File, logDate: Date, today: Date, c: Calls)
    requires Good(f)
    ensures var g := Rotated(cfg, f, logDate, today, c).0;
            && Good(g) && History(g) == History(f)
            && (forall n :: n in f.archives ==> n in g.archives && g.archives[n] == f.archives[n])
  {
    if !c.lstat || f.live.None? {
      StartedKeeps(f, today, c);
    } else if FreeName(cfg, f, logDate).Some? {
      var name := FreeName(cfg, f, logDate).value;
      var closed := f.(open := false);
      if c.rename {
        ArchivedSnoc(f.archives, f.order, name, f.live.value);
        assert History(Renamed(closed, name)) == History(f);
        StartedKeeps(Renamed(closed, name), today, c);
      } else {
        StartedKeeps(closed, today, c);
      }
    }
  }

  /** A write adds what lands at the end; when it reports success that is the whole message. */
  lemma WrittenAppends(f: File, msg: string, io: Outcome)
    requires Good(f)
    ensures Good(Written(f, msg, io).0)
    ensures History(Written(f, msg, io).0) == History(f) + Landed(f, msg, io)
    ensures Written(f, msg, io).1 ==> Landed(f, msg, io) == msg
  {
    var a, t := Archived(f.archives, f.order), Landed(f, msg, io);
    if f.open && f.live.Some? {
      assert a + (f.live.value + t) == a + f.live.value + t;
    } else {
      assert History(f) + "" == History(f);
    }
  }

  /** A rotation that reports success leaves an empty live file with its counters at zero. */
  lemma FreshAfterRotation(cfg: Config, f: File, logDate: Date, today: Date, c: Calls)
    requires Rotated(cfg, f, logDate, today, c).1 == Fine
    ensures var g := Rotated(cfg, f, logDate, today, c).0;
            g.live == Some("") && g.open && g.lines == 0 && g.size == 0
  {
  }

  // ------------------------------------------------------------------ when every number is taken

  /** Every name that the rotation tries exists already. */
  predicate AllTaken(cfg: Config, f: File, logDate: Date) {
    if cfg.maxLines > 0 || cfg.maxSize > 0 then forall n :: 1 <= n <= 999 ==> Name(logDate, n) in f.archives
    else forall n :: 0 <= n <= 999 ==> Name(f.openDate, n) in f.archives
  }

  /** Rotation finds no free name exactly on such a disk, and then changes nothing. */
  lemma RotationStuck(cfg: Config, f: File, logDate: Date, today: Date, c: Calls)
    ensures Rotated(cfg, f, logDate, today, c).1 == NoFreeName <==>
            c.lstat && f.live.Some? && AllTaken(cfg, f, logDate)
    ensures Rotated(cfg, f, logDate, today, c).1 == NoFreeName ==> Rotated(cfg, f, logDate, today, c).0 == f
  {
    hide Started;
    if FreeName(cfg, f, logDate).Some? {
      var name := FreeName(cfg, f, logDate).value;
      assert name !in f.archives && name == Name(name.date, name.num);
    }
  }

  function Joined(msgs: seq<string>): string {
    if msgs == [] then "" else msgs[0] + Joined(msgs[1..])
  }

  /** The file after one successful WriteMsg after another. */
  function AllWritten(cfg: Config, f: File, when: Date, today: Date, c: Calls, msgs: seq<string>): File
    decreases |msgs|
  {
    if msgs == [] then f
    else
      var file := if cfg.rotate then Rechecked(cfg, f, when, today, c) else f;
      AllWritten(cfg, Written(file, msgs[0], Success).0, when, today, c, msgs[1..])
  }

  /** On such a disk the live file takes every further message, whatever the limits say. */
  lemma {:induction false} StuckGrows(cfg: Config, f: File, when: Date, today: Date, c: Calls, msgs: seq<string>)
    requires AllTaken(cfg, f, when) && c.lstat && f.open && f.live.Some?
    ensures var g := AllWritten(cfg, f, when, today, c, msgs);
            g.live == Some(f.live.value + Joined(msgs)) && g.archives == f.archives
    decreases |msgs|
  {
    if msgs == [] {
      assert f.live.value + "" == f.live.value;
    } else {
      RotationStuck(cfg, f, when, today, c);
      hide Rotated, NeedRotate;
      StuckGrows(cfg, Written(f, msgs[0], Success).0, when, today, c, msgs[1..]);
      assert f.live.value + msgs[0] + Joined(msgs[1..]) == f.live.value + (msgs[0] + Joined(msgs[1..]));
    }
  }

  // ------------------------------------------------------------------ when a write rotates

  predicate AllSucceed(c: Calls) {
    c.lstat && c.rename && c.chmod && c.open && c.stat && c.count
  }

  /** The file is full, or its day is over. */
  predicate Due(cfg: Config, f: File, when: Date) {
    || (cfg.maxLines > 0 && f.lines >= cfg.maxLines)
    || (cfg.maxSize > 0 && f.size >= cfg.maxSize)
    || (cfg.daily && when.day != f.openDate.day)
  }

  /** A name the live file may be moved to: the first free one, by the message's date or the file's. */
  predicate NextName(cfg: Config, f: File, when: Date, name: Name) {
    && name !in f.archives && name.num <= 999
    && if cfg.maxLines > 0 || cfg.maxSize > 0 then
         && name.date == when && name.num >= 1
         && forall n :: 1 <= n < name.num ==> Name(when, n) in f.archives
       else
         && name.date == f.openDate
         && forall n :: 0 <= n < name.num ==> Name(f.openDate, n) in f.archives
  }

  /**
   * A full file, or one of another day, is archived under the next free name, and the message is the
   * only one in the new file, whose counters start over on today's date.
   */
  lemma DueRotates(cfg: Config, f: File, when: Date, msg: string, today: Date, c: Calls)
    requires cfg.rotate && f.open && f.live.Some? && AllSucceed(c) && Due(cfg, f, when) && !AllTaken(cfg, f, when)
    ensures var (g, ok) := WroteMsg(cfg, f, when, msg, today, c, Success);
            && ok && g.open && g.live == Some(msg) && g.lines == 1 && g.size == |msg| && g.openDate == today
            && exists name ::
                 && NextName(cfg, f, when, name)
                 && g.archives == f.archives[name := f.live.value] && g.order == f.order + [name]
  {
    RotationStuck(cfg, f, when, today, c);
    assert "" + msg == msg;
    NextIsFree(cfg, f, when);
    var name := FreeName(cfg, f, when).value;
    assert Rotated(cfg, f, when, today, c).0.archives == f.archives[name := f.live.value];
  }

  lemma NextIsFree(cfg: Config, f: File, when: Date)
    ensures FreeName(cfg, f, when).Some? ==> NextName(cfg, f, when, FreeName(cfg, f, when).value)
    ensures FreeName(cfg, f, when).None? ==> AllTaken(cfg, f, when)
  {
  }

  /** A file under its limits on its own day only grows; so does any file if rotation is switched off. */
  lemma NotDueAppends(cfg: Config, f: File, when: Date, msg: string, today: Date, c: Calls)
    requires f.open && f.live.Some? && (cfg.rotate ==> !Due(cfg, f, when))
    ensures WroteMsg(cfg, f, when, msg, today, c, Success)
         == (f.(live := Some(f.live.value + msg), lines := f.lines + 1, size := f.size + |msg|), true)
  {
  }

  /** How a rotation ends, by what failed. */
  lemma RotationVerdict(cfg: Config, f: File, when: Date, today: Date, c: Calls)
    ensures var (g, v) := Rotated(cfg, f, when, today, c);
            && (v == Fine <==> c.lstat && f.live.Some? && !AllTaken(cfg, f, when)
                               && c.rename && c.chmod && c.open && c.stat)
            && (v != NoFreeName && !c.open ==> v == StartFailed)
            && (v != NoFreeName && c.lstat && f.live.Some? && !c.open ==> !g.open)
            && (v == RotateFailed ==> g.open && g.openDate == today)
  {
    RotationStuck(cfg, f, when, today, c);
    NextIsFree(cfg, f, when);
  }

  // ------------------------------------------------------------------ a file that already has lines

  predicate OneLine(s: string) {
    s != [] && s[|s| - 1] == '\n' && '\n' !in s[..|s| - 1]
  }

  lemma {:induction false} NewlinesConcat(s: string, t: string)
    ensures Newlines(s + t) == Newlines(s) + Newlines(t)
  {
    if s == [] {
      assert s + t == t;
    } else {
      assert (s + t)[1..] == s[1..] + t;
      NewlinesConcat(s[1..], t);
    }
  }

  lemma {:induction false} NoNewline(s: string)
    requires '\n' !in s
    ensures Newlines(s) == 0
  {
    if s == [] {
    } else {
      NoNewline(s[1..]);
    }
  }

  lemma {:induction false} LinesCounted(msgs: seq<string>)
    requires forall k :: 0 <= k < |msgs| ==> OneLine(msgs[k])
    ensures Newlines(Joined(msgs)) == |msgs|
  {
    if msgs == [] {
    } else {
      var m := msgs[0];
      LinesCounted(msgs[1..]);
      NewlinesConcat(m, Joined(msgs[1..]));
      NewlinesConcat(m[..|m| - 1], ['\n']);
      NoNewline(m[..|m| - 1]);
      assert m == m[..|m| - 1] + ['\n'];
      assert ['\n'][1..] == [] && Newlines(['\n']) == 1 + Newlines([]);
    }
  }

  /**
   * Reopening a file of whole messages continues it: nothing is lost, the size is its length, the lines
   * are its messages, and the day is today.
   */
  lemma ReopenedCounts(f: File, msgs: seq<string>, today: Date, c: Calls)
    requires AllSucceed(c) && f.live == Some(Joined(msgs))
    requires forall k :: 0 <= k < |msgs| ==> OneLine(msgs[k])
    ensures Started(f, today, c)
         == (f.(open := true, size := |Joined(msgs)|, lines := |msgs|, openDate := today), true)
  {
    LinesCounted(msgs);
  }

  /** A missing file is created empty. */
  lemma CreatedEmpty(f: File, today: Date, c: Calls)
    requires AllSucceed(c) && f.live.None?
    ensures Started(f, today, c)
         == (f.(live := Some(""), open := true, size := 0, lines := 0, openDate := today), true)
  {
  }

  /** When a call fails, starting reports it, and what was known before stays for what was not read. */
  lemma FailedStart(f: File, today: Date, c: Calls)
    ensures !c.open ==> Started(f, today, c) == (f, false)
    ensures c.open && !c.stat ==>
              var (g, ok) := Started(f, today, c);
              !ok && g.open && g.size == f.size && g.lines == f.lines && g.openDate == f.openDate
    ensures c.open && c.stat && !c.count && f.live.Some? && f.live.value != "" ==>
              var (g, ok) := Started(f, today, c);
              !ok && g.open && g.size == |f.live.value| && g.lines == 0 && g.openDate == today
  {
  }
}
