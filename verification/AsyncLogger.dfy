/**
 * The asynchronous logger of common/hlogger/log.go as a step system: producers, a bounded channel,
 * one worker, a signal channel, a WaitGroup and a pool of message objects, under every interleaving.
 */
module AsyncLogger {
  import opened Wrappers

  type Ref = nat

  /** The fields of a logMsg. */
  datatype Entry = Entry(level: int, text: string, when: int)

  const BLANK := Entry(0, "", 0)

  datatype Signal = Flush | Close

  /** A goroutine inside writeMsg: before Get, with an object to fill, with a filled object to send. */
  datatype Producer = Quiet | Filling(r: Ref) | Sending(r: Ref)

  /** Where the worker goroutine is, in startLogger or in flush. */
  datatype Worker =
    | Selecting
    | Writing(r: Ref)
    | Returning(r: Ref)
    | Testing(sg: Signal)
    | Taking(sg: Signal)
    | DrainWriting(sg: Signal, r: Ref)
    | DrainReturning(sg: Signal, r: Ref)
    | Syncing(sg: Signal)
    | Destroying
    | Finishing(sg: Signal)
    | Stopped

  /** The one caller inside Flush or Close. */
  datatype Caller = Free | Signalling(sg: Signal) | Waiting(sg: Signal) | Adding | Closing | Closed

  datatype State = State(
    cap: nat,
    heap: map<Ref, Entry>,
    pool: set<Ref>,
    producers: seq<Producer>,
    chan: seq<Ref>,
    worker: Worker,
    signals: seq<Signal>,
    wg: int,
    caller: Caller,
    sent: seq<Entry>,      // what was sent on the channel, in order
    written: seq<Entry>,   // what was handed to the outputs, in order
    mark: nat              // how much had been sent when Flush or Close was called
  )

  datatype Step =
    | GetPooled(p: nat, r: Ref)
    | GetNew(p: nat, r: Ref)
    | Fill(p: nat, e: Entry)
    | Send(p: nat)
    | Collect(r: Ref)
    | Receive
    | Write
    | Put
    | TakeSignal
    | TestLen
    | Take
    | Sync
    | Destroy
    | Done
    | Call(sg: Signal)
    | SendSignal
    | Waited
    | Add
    | CloseChannels

  // ------------------------------------------------------------------ the steps

  /** After Async: the worker runs and the WaitGroup counts it. */
  predicate Initial(s: State) {
    && s.cap > 0 && s.heap == map[] && s.pool == {} && s.chan == [] && s.signals == []
    && (forall p :: 0 <= p < |s.producers| ==> s.producers[p] == Quiet)
    && s.worker == Selecting && s.wg == 1 && s.caller == Free
    && s.sent == [] && s.written == [] && s.mark == 0
  }

  /** No send may race Close: producers are quiet when it is called and stay so. */
  predicate IsClosing(c: Caller) {
    c == Signalling(Close) || c == Waiting(Close) || c == Closing || c == Closed
  }

  predicate Enabled(s: State, a: Step) {
    match a
    case GetPooled(p, r) => p < |s.producers| && s.producers[p] == Quiet && r in s.pool && !IsClosing(s.caller)
    case GetNew(p, r) => p < |s.producers| && s.producers[p] == Quiet && r !in s.heap && !IsClosing(s.caller)
    case Fill(p, e) => p < |s.producers| && s.producers[p].Filling?
    case Send(p) => p < |s.producers| && s.producers[p].Sending? && s.producers[p].r in s.heap && |s.chan| < s.cap
    case Collect(r) => r in s.pool
    case Receive => s.worker == Selecting && s.chan != []
    case Write => (s.worker.Writing? || s.worker.DrainWriting?) && s.worker.r in s.heap
    case Put => s.worker.Returning? || s.worker.DrainReturning?
    case TakeSignal => s.worker == Selecting && s.signals != []
    case TestLen => s.worker.Testing?
    case Take => s.worker.Taking? && s.chan != []
    case Sync => s.worker.Syncing?
    case Destroy => s.worker == Destroying
    case Done => s.worker.Finishing?
    case Call(sg) =>
      s.caller == Free && (sg == Close ==> forall p :: 0 <= p < |s.producers| ==> s.producers[p] == Quiet)
    case SendSignal => s.caller.Signalling? && |s.signals| < 1
    case Waited => s.caller.Waiting? && s.wg == 0
    case Add => s.caller == Adding
    case CloseChannels => s.caller == Closing
  }

  function Apply(s: State, a: Step): State
    requires Enabled(s, a)
  {
    match a
    case GetPooled(p, r) => s.(pool := s.pool - {r}, producers := s.producers[p := Filling(r)])
    case GetNew(p, r) => s.(heap := s.heap[r := BLANK], producers := s.producers[p := Filling(r)])
    case Fill(p, e) =>
      s.(heap := s.heap[s.producers[p].r := e], producers := s.producers[p := Sending(s.producers[p].r)])
    case Send(p) =>
      var r := s.producers[p].r;
      s.(chan := s.chan + [r], sent := s.sent + [s.heap[r]], producers := s.producers[p := Quiet])
    case Collect(r) => s.(pool := s.pool - {r})
    case Receive => s.(worker := Writing(s.chan[0]), chan := s.chan[1..])
    case Write =>
      var r := s.worker.r;
      s.(written := s.written + [s.heap[r]],
         worker := if s.worker.Writing? then Returning(r) else DrainReturning(s.worker.sg, r))
    case Put =>
      s.(pool := s.pool + {s.worker.r}, worker := if s.worker.Returning? then Selecting else Testing(s.worker.sg))
    case TakeSignal => s.(worker := Testing(s.signals[0]), signals := s.signals[1..])
    case TestLen => s.(worker := if |s.chan| > 0 then Taking(s.worker.sg) else Syncing(s.worker.sg))
    case Take => s.(worker := DrainWriting(s.worker.sg, s.chan[0]), chan := s.chan[1..])
    case Sync => s.(worker := if s.worker.sg == Close then Destroying else Finishing(Flush))
    case Destroy => s.(worker := Finishing(Close))
    case Done => s.(wg := s.wg - 1, worker := if s.worker.sg == Close then Stopped else Selecting)
    case Call(sg) => s.(caller := Signalling(sg), mark := |s.sent|)
    case SendSignal => s.(caller := Waiting(s.caller.sg), signals := s.signals + [s.caller.sg])
    case Waited => s.(caller := if s.caller.sg == Close then Closing else Adding)
    case Add => s.(caller := Free, wg := s.wg + 1)
    case CloseChannels => s.(caller := Closed)
  }

  predicate WorkerStep(a: Step) {
    a in {Receive, Write, Put, TakeSignal, TestLen, Take, Sync, Destroy, Done}
  }

  predicate CallerStep(a: Step) {
    a in {SendSignal, Waited, Add, CloseChannels}
  }

  // ------------------------------------------------------------------ the invariant

  function HeldBy(p: Producer): set<Ref> {
    match p
    case Quiet => {}
    case Filling(r) => {r}
    case Sending(r) => {r}
  }

  function HeldByWorker(w: Worker): set<Ref> {
    match w
    case Writing(r) => {r}
    case Returning(r) => {r}
    case DrainWriting(_, r) => {r}
    case DrainReturning(_, r) => {r}
    case _ => {}
  }

  /** Every message object is in exactly one of pool, a producer's hand, the channel, the worker's hand. */
  predicate Owned(s: State) {
    && (forall r :: r in s.pool ==> r in s.heap && r !in s.chan && r !in HeldByWorker(s.worker))
    && (forall k :: 0 <= k < |s.chan| ==> s.chan[k] in s.heap && s.chan[k] !in HeldByWorker(s.worker))
    && (forall j, k :: 0 <= j < k < |s.chan| ==> s.chan[j] != s.chan[k])
    && (forall r :: r in HeldByWorker(s.worker) ==> r in s.heap)
    && (forall p :: 0 <= p < |s.producers| ==> Apart(s, p))
    && (forall p, q :: 0 <= p < q < |s.producers| ==> HeldBy(s.producers[p]) !! HeldBy(s.producers[q]))
  }

  /** What producer p holds is nowhere else. */
  predicate Apart(s: State, p: nat)
    requires p < |s.producers|
  {
    forall r :: r in HeldBy(s.producers[p]) ==>
                  r in s.heap && r !in s.pool && r !in s.chan && r !in HeldByWorker(s.worker)
  }

  function Contents(heap: map<Ref, Entry>, rs: seq<Ref>): seq<Entry>
    requires forall k :: 0 <= k < |rs| ==> rs[k] in heap
  {
    if rs == [] then [] else [heap[rs[0]]] + Contents(heap, rs[1..])
  }

  /** What the worker has taken from the channel and not yet written. */
  function InHand(w: Worker): seq<Ref> {
    if w.Writing? || w.DrainWriting? then [w.r] else []
  }

  /** Delivered, then in hand, then queued: always the order of sending. */
  predicate Ordered(s: State)
    requires Owned(s)
  {
    s.written + Contents(s.heap, InHand(s.worker) + s.chan) == s.sent
  }

  predicate Serves(w: Worker, sg: Signal) {
    match w
    case Testing(x) => x == sg
    case Taking(x) => x == sg
    case DrainWriting(x, _) => x == sg
    case DrainReturning(x, _) => x == sg
    case Syncing(x) => x == sg
    case Destroying => sg == Close
    case Finishing(x) => x == sg
    case _ => false
  }

  /** In the select loop, not serving a signal. */
  predicate Looping(w: Worker) {
    w == Selecting || w.Writing? || w.Returning?
  }

  /** The drain loop is over for the signal being served. */
  predicate Drained(w: Worker) {
    w.Syncing? || w == Destroying || w.Finishing?
  }

  /** Caller, signal channel, WaitGroup and worker are in step. */
  predicate Handshake(s: State) {
    && s.mark <= |s.sent|
    && (s.worker.Taking? ==> s.chan != [])
    && (Drained(s.worker) ==> |s.written| >= s.mark)
    && match s.caller
       case Free => s.wg == 1 && s.signals == [] && Looping(s.worker)
       case Signalling(_) => s.wg == 1 && s.signals == [] && Looping(s.worker)
       case Waiting(sg) =>
         || (s.wg == 1 && s.signals == [sg] && Looping(s.worker))
         || (s.wg == 1 && s.signals == [] && Serves(s.worker, sg))
         || (s.wg == 0 && s.signals == [] && |s.written| >= s.mark
             && if sg == Close then s.worker == Stopped else Looping(s.worker))
       case Adding => s.wg == 0 && s.signals == [] && |s.written| >= s.mark && Looping(s.worker)
       case _ => s.wg == 0 && s.signals == [] && |s.written| >= s.mark && s.worker == Stopped
  }

  /** While closing nobody sends, so everything sent was sent before the call. */
  predicate ClosingQuiet(s: State) {
    IsClosing(s.caller) ==>
      && (forall p :: 0 <= p < |s.producers| ==> s.producers[p] == Quiet)
      && s.mark == |s.sent|
  }

  predicate Inv(s: State) {
    && s.cap > 0 && |s.chan| <= s.cap
    && Owned(s) && Ordered(s) && Handshake(s) && ClosingQuiet(s)
  }

  // ------------------------------------------------------------------ every step keeps it

  lemma {:induction false} ContentsSame(h: map<Ref, Entry>, h': map<Ref, Entry>, rs: seq<Ref>)
    requires forall k :: 0 <= k < |rs| ==> rs[k] in h && rs[k] in h' && h[rs[k]] == h'[rs[k]]
    ensures Contents(h, rs) == Contents(h', rs)
  {
    if rs == [] {
    } else {
      ContentsSame(h, h', rs[1..]);
    }
  }

  lemma {:induction false} ContentsSnoc(h: map<Ref, Entry>, rs: seq<Ref>, r: Ref)
    requires r in h && forall k :: 0 <= k < |rs| ==> rs[k] in h
    ensures Contents(h, rs + [r]) == Contents(h, rs) + [h[r]]
  {
    if rs == [] {
      assert rs + [r] == [r];
    } else {
      assert (rs + [r])[1..] == rs[1..] + [r];
      ContentsSnoc(h, rs[1..], r);
    }
  }

  lemma {:induction false} ContentsLength(h: map<Ref, Entry>, rs: seq<Ref>)
    requires forall k :: 0 <= k < |rs| ==> rs[k] in h
    ensures |Contents(h, rs)| == |rs|
  {
    if rs == [] {
    } else {
      ContentsLength(h, rs[1..]);
    }
  }

  /** A producer gets an object that nobody else has. */
  lemma OwnedGet(s: State, a: Step)
    requires Owned(s) && Enabled(s, a) && (a.GetPooled? || a.GetNew?)
    ensures Owned(Apply(s, a))
  {
    var s' := Apply(s, a);
    var p, r := a.p, a.r;
    forall q | 0 <= q < |s.producers|
      ensures Apart(s', q) && (q != p ==> r !in HeldBy(s.producers[q]))
    {
      assert Apart(s, q);
      assert q != p ==> s'.producers[q] == s.producers[q];
    }
  }

  lemma OwnedSend(s: State, a: Step)
    requires Owned(s) && Enabled(s, a) && (a.Fill? || a.Send?)
    ensures Owned(Apply(s, a))
  {
    var s' := Apply(s, a);
    var p, r := a.p, s.producers[a.p].r;
    assert r in HeldBy(s.producers[p]) && Apart(s, p);
    forall q | 0 <= q < |s.producers|
      ensures Apart(s', q)
    {
      assert Apart(s, q);
      assert q != p ==> s'.producers[q] == s.producers[q] && HeldBy(s.producers[p]) !! HeldBy(s.producers[q]);
    }
  }

  lemma OwnedTake(s: State, a: Step)
    requires Owned(s) && Enabled(s, a) && (a == Receive || a == Take)
    ensures Owned(Apply(s, a))
  {
    assert s.chan == [s.chan[0]] + s.chan[1..];
    forall q | 0 <= q < |s.producers|
      ensures Apart(Apply(s, a), q)
    {
      assert Apart(s, q);
    }
  }

  lemma OwnedRest(s: State, a: Step)
    requires Owned(s) && Enabled(s, a)
    requires !a.GetPooled? && !a.GetNew? && !a.Fill? && !a.Send? && a != Receive && a != Take
    ensures Owned(Apply(s, a))
  {
    forall q | 0 <= q < |s.producers|
      ensures Apart(Apply(s, a), q)
    {
      assert Apart(s, q);
    }
  }

  lemma OwnedStep(s: State, a: Step)
    requires Owned(s) && Enabled(s, a)
    ensures Owned(Apply(s, a))
  {
    hide Owned, Apply, Enabled;
    if a.GetPooled? || a.GetNew? {
      OwnedGet(s, a);
    } else if a.Fill? || a.Send? {
      OwnedSend(s, a);
    } else if a == Receive || a == Take {
      OwnedTake(s, a);
    } else {
      OwnedRest(s, a);
    }
  }

  /** Filling touches no object that is queued or in the worker's hand. */
  lemma OrderedFill(s: State, a: Step)
    requires Owned(s) && Ordered(s) && Enabled(s, a) && Owned(Apply(s, a)) && (a.GetNew? || a.Fill?)
    ensures Ordered(Apply(s, a))
  {
    if a.Fill? {
      assert s.producers[a.p].r in HeldBy(s.producers[a.p]) && Apart(s, a.p);
    }
    ContentsSame(s.heap, Apply(s, a).heap, InHand(s.worker) + s.chan);
  }

  lemma OrderedSend(s: State, p: nat)
    requires Owned(s) && Ordered(s) && Enabled(s, Send(p)) && Owned(Apply(s, Send(p)))
    ensures Ordered(Apply(s, Send(p)))
  {
    var rs, r := InHand(s.worker) + s.chan, s.producers[p].r;
    assert InHand(s.worker) + (s.chan + [r]) == rs + [r];
    ContentsSnoc(s.heap, rs, r);
  }

  lemma OrderedWrite(s: State)
    requires Owned(s) && Ordered(s) && Enabled(s, Write) && Owned(Apply(s, Write))
    ensures Ordered(Apply(s, Write))
  {
    ContentsCons(s.heap, s.worker.r, s.chan);
    hide Owned, Contents;
    var e, rest := s.heap[s.worker.r], Contents(s.heap, s.chan);
    assert InHand(s.worker) == [s.worker.r] && InHand(Apply(s, Write).worker) + s.chan == s.chan;
    assert s.written + ([e] + rest) == s.written + [e] + rest;
  }

  lemma ContentsCons(h: map<Ref, Entry>, r: Ref, rs: seq<Ref>)
    requires r in h && forall k :: 0 <= k < |rs| ==> rs[k] in h
    ensures forall k :: 0 <= k < |[r] + rs| ==> ([r] + rs)[k] in h
    ensures Contents(h, [r] + rs) == [h[r]] + Contents(h, rs)
  {
    assert ([r] + rs)[1..] == rs;
  }

  lemma OrderedRest(s: State, a: Step)
    requires Owned(s) && Ordered(s) && Enabled(s, a) && Owned(Apply(s, a))
    requires !a.GetNew? && !a.Fill? && !a.Send? && a != Write
    ensures Ordered(Apply(s, a))
  {
    hide Owned, Contents, Apply, Enabled, InHand;
    RestSame(s, a);
  }

  lemma RestSame(s: State, a: Step)
    requires Enabled(s, a) && !a.GetNew? && !a.Fill? && !a.Send? && a != Write
    ensures var s' := Apply(s, a);
            && InHand(s'.worker) + s'.chan == InHand(s.worker) + s.chan
            && s'.heap == s.heap && s'.written == s.written && s'.sent == s.sent
  {
    match a {
      case GetPooled(_, _) =>
      case Collect(_) =>
      case Receive =>
      case Put =>
      case TakeSignal =>
      case TestLen =>
      case Take =>
      case Sync =>
      case Destroy =>
      case Done =>
      case Call(_) =>
      case SendSignal =>
      case Waited =>
      case Add =>
      case CloseChannels =>
    }
  }

  lemma OrderedStep(s: State, a: Step)
    requires Owned(s) && Ordered(s) && Enabled(s, a) && Owned(Apply(s, a))
    ensures Ordered(Apply(s, a))
  {
    hide Owned, Ordered, Apply, Enabled;
    if a.GetNew? || a.Fill? {
      OrderedFill(s, a);
    } else if a.Send? {
      OrderedSend(s, a.p);
    } else if a == Write {
      OrderedWrite(s);
    } else {
      OrderedRest(s, a);
    }
  }

  /** Testing an empty channel: everything sent has been written. */
  lemma EmptyChannel(s: State)
    requires Owned(s) && Ordered(s) && s.chan == [] && InHand(s.worker) == []
    ensures s.written == s.sent
  {
    assert InHand(s.worker) + s.chan == [];
  }

  lemma HandshakeCaller(s: State, a: Step)
    requires Handshake(s) && ClosingQuiet(s) && Enabled(s, a) && (a.Call? || CallerStep(a))
    ensures Handshake(Apply(s, a)) && ClosingQuiet(Apply(s, a))
  {
    match a {
      case Call(_) =>
      case SendSignal =>
      case Waited =>
      case Add =>
      case CloseChannels =>
    }
  }

  lemma HandshakeWorker(s: State, a: Step)
    requires Handshake(s) && ClosingQuiet(s) && Enabled(s, a) && WorkerStep(a)
    requires a == TestLen && s.chan == [] ==> s.written == s.sent
    ensures Handshake(Apply(s, a)) && ClosingQuiet(Apply(s, a))
  {
    match a {
      case Receive =>
      case Write =>
      case Put =>
      case TakeSignal =>
      case TestLen =>
      case Take =>
      case Sync =>
      case Destroy =>
      case Done =>
    }
  }

  lemma HandshakeProducer(s: State, a: Step)
    requires Handshake(s) && ClosingQuiet(s) && Enabled(s, a) && !a.Call? && !CallerStep(a) && !WorkerStep(a)
    ensures Handshake(Apply(s, a)) && ClosingQuiet(Apply(s, a))
  {
    match a {
      case GetPooled(_, _) =>
      case GetNew(_, _) =>
      case Fill(_, _) =>
      case Send(_) =>
      case Collect(_) =>
    }
  }

  lemma HandshakeStep(s: State, a: Step)
    requires Inv(s) && Enabled(s, a)
    ensures Handshake(Apply(s, a)) && ClosingQuiet(Apply(s, a))
  {
    hide Owned, Ordered, Apply, Handshake, ClosingQuiet;
    if a.Call? || CallerStep(a) {
      HandshakeCaller(s, a);
    } else if WorkerStep(a) {
      if a == TestLen && s.chan == [] {
        EmptyChannel(s);
      }
      HandshakeWorker(s, a);
    } else {
      HandshakeProducer(s, a);
    }
  }

  lemma InvStep(s: State, a: Step)
    requires Inv(s) && Enabled(s, a)
    ensures Inv(Apply(s, a))
  {
    OwnedStep(s, a);
    OrderedStep(s, a);
    HandshakeStep(s, a);
  }

  // ------------------------------------------------------------------ runs

  /** A run: states and the steps between them, in any interleaving. */
  predicate Run(ss: seq<State>, acts: seq<Step>) {
    && |ss| == |acts| + 1
    && Initial(ss[0])
    && forall i :: 0 <= i < |acts| ==> Taken(ss, acts, i)
  }

  predicate Taken(ss: seq<State>, acts: seq<Step>, i: nat)
    requires i < |acts| && i + 1 < |ss|
  {
    Enabled(ss[i], acts[i]) && ss[i + 1] == Apply(ss[i], acts[i])
  }

  /** The invariant holds in every state of every run. */
  lemma {:induction false} RunInv(ss: seq<State>, acts: seq<Step>, i: nat)
    requires Run(ss, acts) && i < |ss|
    ensures Inv(ss[i])
  {
    if i == 0 {
      assert InHand(ss[0].worker) + ss[0].chan == [];
    } else {
      RunInv(ss, acts, i - 1);
      assert Taken(ss, acts, i - 1);
      InvStep(ss[i - 1], acts[i - 1]);
    }
  }

  /** No message object is lost: what was not collected is in the pool, queued, or in use. */
  lemma {:induction false} NothingLeaks(ss: seq<State>, acts: seq<Step>, i: nat)
    requires Run(ss, acts) && i < |ss|
    ensures Accounted(ss[i], acts, i)
  {
    if i == 0 {
    } else {
      NothingLeaks(ss, acts, i - 1);
      assert Taken(ss, acts, i - 1);
      forall r | r in ss[i].heap
        ensures || r in ss[i].pool || r in ss[i].chan || r in HeldByWorker(ss[i].worker)
                || (exists p :: 0 <= p < |ss[i].producers| && r in HeldBy(ss[i].producers[p]))
                || (exists k :: 0 <= k < i && acts[k] == Collect(r))
      {
        AccountedStep(ss[i - 1], acts, i - 1, r);
      }
    }
  }

  /** In every reachable state each object has one owner and the WaitGroup counts 0 or 1. */
  lemma OneOwner(ss: seq<State>, acts: seq<Step>, i: nat)
    requires Run(ss, acts) && i < |ss|
    ensures Owned(ss[i]) && ss[i].wg in {0, 1}
    ensures ss[i].worker.Finishing? ==> ss[i].wg == 1
  {
    RunInv(ss, acts, i);
  }

  /** The entry that producer p was last asked to log before step k. */
  function LastFill(acts: seq<Step>, p: nat, k: nat): Option<Entry>
    requires k <= |acts|
    decreases k
  {
    if k == 0 then None
    else
      match acts[k - 1]
      case Fill(q, e) => if q == p then Some(e) else LastFill(acts, p, k - 1)
      case _ => LastFill(acts, p, k - 1)
  }

  /** What the producers logged before step i: for every send, the entry it was asked to log. */
  function Logged(acts: seq<Step>, i: nat): seq<Entry>
    requires i <= |acts|
    decreases i
  {
    if i == 0 then []
    else
      match acts[i - 1]
      case Send(p) =>
        (match LastFill(acts, p, i - 1)
         case Some(e) => Logged(acts, i - 1) + [e]
         case None => Logged(acts, i - 1))
      case _ => Logged(acts, i - 1)
  }

  /** A producer about to send holds an object with the entry it was asked to log. */
  predicate Filled(s: State, acts: seq<Step>, i: nat)
    requires i <= |acts|
  {
    forall p :: 0 <= p < |s.producers| && s.producers[p].Sending? ==>
                  s.producers[p].r in s.heap && LastFill(acts, p, i) == Some(s.heap[s.producers[p].r])
  }

  lemma FilledStep(s: State, acts: seq<Step>, i: nat)
    requires i < |acts| && Inv(s) && Enabled(s, acts[i]) && Filled(s, acts, i)
    ensures Filled(Apply(s, acts[i]), acts, i + 1)
  {
    var a, s' := acts[i], Apply(s, acts[i]);
    forall p | 0 <= p < |s'.producers| && s'.producers[p].Sending?
      ensures s'.producers[p].r in s'.heap && LastFill(acts, p, i + 1) == Some(s'.heap[s'.producers[p].r])
    {
      if a.Fill? {
        if a.p != p {
          assert s.producers[a.p].r in HeldBy(s.producers[a.p]) && s.producers[p].r in HeldBy(s.producers[p]);
          assert HeldBy(s.producers[a.p]) !! HeldBy(s.producers[p]);
        }
      } else {
        SendersStay(s, a, p);
      }
    }
  }

  lemma SendersStay(s: State, a: Step, p: nat)
    requires Enabled(s, a) && !a.Fill? && p < |Apply(s, a).producers| && Apply(s, a).producers[p].Sending?
    ensures var s' := Apply(s, a);
            && p < |s.producers| && s'.producers[p] == s.producers[p]
            && forall r :: r in s.heap ==> r in s'.heap && s'.heap[r] == s.heap[r]
  {
    match a {
      case GetPooled(_, _) =>
      case GetNew(_, _) =>
      case Send(_) =>
      case _ =>
    }
  }

  lemma {:induction false} RunFilled(ss: seq<State>, acts: seq<Step>, i: nat)
    requires Run(ss, acts) && i < |ss|
    ensures Filled(ss[i], acts, i)
  {
    if i == 0 {
    } else {
      RunFilled(ss, acts, i - 1);
      RunInv(ss, acts, i - 1);
      assert Taken(ss, acts, i - 1);
      hide Enabled, Apply, Inv, Filled;
      FilledStep(ss[i - 1], acts, i - 1);
    }
  }

  /** What is sent is what the producers were asked to log, in the order of sending. */
  lemma {:induction false} SentIsLogged(ss: seq<State>, acts: seq<Step>, i: nat)
    requires Run(ss, acts) && i < |ss|
    ensures ss[i].sent == Logged(acts, i)
  {
    if i == 0 {
    } else {
      SentIsLogged(ss, acts, i - 1);
      RunFilled(ss, acts, i - 1);
      assert Taken(ss, acts, i - 1);
      SentNext(ss[i - 1], acts[i - 1]);
    }
  }

  lemma SentNext(s: State, a: Step)
    requires Enabled(s, a)
    ensures Apply(s, a).sent == if a.Send? then s.sent + [s.heap[s.producers[a.p].r]] else s.sent
  {
  }

  /** What is written is always a prefix of what was logged: in order, nothing twice, nothing invented. */
  lemma WrittenIsPrefix(ss: seq<State>, acts: seq<Step>, i: nat)
    requires Run(ss, acts) && i < |ss|
    ensures ss[i].written <= Logged(acts, i)
  {
    RunInv(ss, acts, i);
    SentIsLogged(ss, acts, i);
  }

  lemma SentStep(s: State, a: Step)
    requires Enabled(s, a)
    ensures s.sent <= Apply(s, a).sent
  {
  }

  lemma {:induction false} SentGrows(ss: seq<State>, acts: seq<Step>, i: nat, j: nat)
    requires Run(ss, acts) && i <= j < |ss|
    ensures ss[i].sent <= ss[j].sent
  {
    if i == j {
    } else {
      SentGrows(ss, acts, i, j - 1);
      assert Taken(ss, acts, j - 1);
      SentStep(ss[j - 1], acts[j - 1]);
    }
  }

  /** From the call on until its Add, the mark stays where the call put it. */
  lemma {:induction false} MarkStays(ss: seq<State>, acts: seq<Step>, i: nat, j: nat)
    requires Run(ss, acts) && i < j < |ss| && acts[i].Call?
    requires forall k :: i < k < j ==> acts[k] != Add
    ensures ss[j].mark == |ss[i].sent| && ss[j].caller != Free
    decreases j
  {
    assert Taken(ss, acts, j - 1);
    if j == i + 1 {
    } else {
      MarkStays(ss, acts, i, j - 1);
    }
  }

  /**
   * Flush is a barrier: when the Flush called at step i returns at step j, every message logged before
   * the call has been written, exactly once and in order, and the outputs were flushed after that.
   */
  lemma FlushBarrier(ss: seq<State>, acts: seq<Step>, i: nat, j: nat)
    requires Run(ss, acts) && i < j < |acts|
    requires acts[i] == Call(Flush) && acts[j] == Add && forall k :: i < k < j ==> acts[k] != Add
    ensures Logged(acts, i) <= ss[j + 1].written <= Logged(acts, j + 1)
    ensures exists k :: i < k < j && acts[k] == Sync && Logged(acts, i) <= ss[k].written
  {
    hide Enabled, Apply, Inv, PastSync, Logged;
    SentIsLogged(ss, acts, j + 1);
    WrittenIsPrefix(ss, acts, j + 1);
    AddReady(ss, acts, i, j);
    SyncedBefore(ss, acts, i, j);
    WrittenSoFar(ss, acts, i, j + 1);
  }

  /** When the caller is about to add, its signal has been served up to its mark. */
  lemma AddReady(ss: seq<State>, acts: seq<Step>, i: nat, j: nat)
    requires Run(ss, acts) && i < j < |acts| && acts[i].Call? && acts[j] == Add
    requires forall k :: i < k < j ==> acts[k] != Add
    ensures PastSync(ss[j]) && |ss[i].sent| <= |ss[j + 1].written|
  {
    MarkStays(ss, acts, i, j);
    assert Taken(ss, acts, j);
    RunInv(ss, acts, j);
    hide Owned, Ordered, ClosingQuiet, Run;
  }

  lemma WrittenSoFar(ss: seq<State>, acts: seq<Step>, i: nat, k: nat)
    requires Run(ss, acts) && i <= k < |ss| && |ss[i].sent| <= |ss[k].written|
    ensures Logged(acts, i) <= ss[k].written
  {
    SentIsLogged(ss, acts, i);
    RunInv(ss, acts, k);
    SentGrows(ss, acts, i, k);
    var a, w, t := ss[i].sent, ss[k].written, ss[k].sent;
    assert w <= t && a <= t;
    assert forall n :: 0 <= n < |a| ==> a[n] == t[n] == w[n];
  }

  /** The signal of the call is served to the end, or about to be. */
  predicate PastSync(s: State) {
    s.worker.Finishing? || s.worker == Destroying || s.wg == 0
  }

  lemma SyncStep(s: State, a: Step)
    requires Inv(s) && Enabled(s, a) && !PastSync(s) && a != Sync
    ensures !PastSync(Apply(s, a))
  {
    hide Owned, Ordered, ClosingQuiet;
    match a {
      case GetPooled(_, _) =>
      case GetNew(_, _) =>
      case Fill(_, _) =>
      case Send(_) =>
      case Collect(_) =>
      case _ =>
    }
  }

  /** Between a call and its end the outputs are synced, after everything sent before has been written. */
  lemma {:induction false} SyncedBefore(ss: seq<State>, acts: seq<Step>, i: nat, j: nat)
    requires Run(ss, acts) && i < j < |ss| && acts[i].Call?
    requires forall k :: i < k < j ==> acts[k] != Add
    ensures PastSync(ss[j]) ==> exists k :: i < k < j && acts[k] == Sync && Logged(acts, i) <= ss[k].written
    decreases j
  {
    assert Taken(ss, acts, j - 1);
    RunInv(ss, acts, j - 1);
    hide Enabled, Apply, Inv, PastSync, Run, Logged;
    if j == i + 1 {
      CallStarts(ss[i], acts[i]);
    } else {
      SyncedBefore(ss, acts, i, j - 1);
      if acts[j - 1] == Sync {
        MarkStays(ss, acts, i, j - 1);
        SyncIsDrained(ss[j - 1]);
        WrittenSoFar(ss, acts, i, j - 1);
        assert acts[j - 1] == Sync && Logged(acts, i) <= ss[j - 1].written;
      } else if !PastSync(ss[j - 1]) {
        SyncStep(ss[j - 1], acts[j - 1]);
      }
    }
  }

  lemma CallStarts(s: State, a: Step)
    requires Inv(s) && Enabled(s, a) && a.Call?
    ensures !PastSync(Apply(s, a))
  {
    hide Owned, Ordered, ClosingQuiet;
  }

  lemma SyncIsDrained(s: State)
    requires Inv(s) && Enabled(s, Sync)
    ensures |s.written| >= s.mark
  {
    hide Owned, Ordered, ClosingQuiet;
  }

  /** The worker has destroyed the outputs. */
  predicate PastDestroy(s: State) {
    s.worker == Stopped || s.worker == Finishing(Close)
  }

  lemma DestroyStep(s: State, a: Step)
    requires Enabled(s, a) && !PastDestroy(s) && a != Destroy
    ensures !PastDestroy(Apply(s, a))
  {
    match a {
      case GetPooled(_, _) =>
      case GetNew(_, _) =>
      case Fill(_, _) =>
      case Send(_) =>
      case Collect(_) =>
      case _ =>
    }
  }

  lemma DestroyingIsDone(s: State)
    requires Inv(s) && Enabled(s, Destroy)
    ensures s.written == s.sent
  {
    assert s.caller == Waiting(Close) && s.mark == |s.sent|;
  }

  /** The outputs are destroyed only after everything logged has been written. */
  lemma {:induction false} DestroyedLast(ss: seq<State>, acts: seq<Step>, i: nat)
    requires Run(ss, acts) && i < |ss|
    ensures PastDestroy(ss[i]) ==> exists k :: 0 <= k < i && acts[k] == Destroy && ss[k].written == Logged(acts, k)
  {
    if i == 0 {
    } else {
      DestroyedLast(ss, acts, i - 1);
      assert Taken(ss, acts, i - 1);
      hide Apply, PastDestroy, Run, Logged, Inv, Enabled;
      if acts[i - 1] == Destroy {
        RunInv(ss, acts, i - 1);
        SentIsLogged(ss, acts, i - 1);
        DestroyingIsDone(ss[i - 1]);
        assert acts[i - 1] == Destroy && ss[i - 1].written == Logged(acts, i - 1);
      } else if !PastDestroy(ss[i - 1]) {
        DestroyStep(ss[i - 1], acts[i - 1]);
      }
    }
  }

  /**
   * When Close returns, everything ever logged has been written, the channel is empty, and the outputs
   * were destroyed after all that had been logged was written.
   */
  lemma CloseDrains(ss: seq<State>, acts: seq<Step>, i: nat)
    requires Run(ss, acts) && i < |ss| && (ss[i].caller == Closing || ss[i].caller == Closed)
    ensures ss[i].written == Logged(acts, i) && ss[i].chan == [] && ss[i].worker == Stopped
    ensures exists k :: 0 <= k < i && acts[k] == Destroy && ss[k].written == Logged(acts, k)
  {
    DestroyedLast(ss, acts, i);
    SentIsLogged(ss, acts, i);
    RunInv(ss, acts, i);
    var s := ss[i];
    ContentsLength(s.heap, InHand(s.worker) + s.chan);
  }

  // ------------------------------------------------------------------ progress

  /** While somebody is inside Flush or Close, the worker or the caller can move: no deadlock. */
  lemma NoDeadlock(s: State)
    requires Inv(s) && s.caller != Free && s.caller != Closed
    ensures exists a :: (WorkerStep(a) || CallerStep(a)) && Enabled(s, a)
  {
    match s.caller {
      case Signalling(_) => assert CallerStep(SendSignal) && Enabled(s, SendSignal);
      case Adding => assert CallerStep(Add) && Enabled(s, Add);
      case Closing => assert CallerStep(CloseChannels) && Enabled(s, CloseChannels);
      case Waiting(_) =>
        if s.wg == 0 {
          assert CallerStep(Waited) && Enabled(s, Waited);
        } else {
          WorkerMoves(s);
        }
    }
  }

  lemma WorkerMoves(s: State)
    requires Inv(s) && s.caller.Waiting? && s.wg == 1
    ensures exists a :: WorkerStep(a) && Enabled(s, a)
  {
    match s.worker {
      case Selecting => assert WorkerStep(TakeSignal) && Enabled(s, TakeSignal);
      case Writing(r) => assert r in HeldByWorker(s.worker) && WorkerStep(Write) && Enabled(s, Write);
      case Returning(_) => assert WorkerStep(Put) && Enabled(s, Put);
      case Testing(_) => assert WorkerStep(TestLen) && Enabled(s, TestLen);
      case Taking(_) => assert WorkerStep(Take) && Enabled(s, Take);
      case DrainWriting(_, r) => assert r in HeldByWorker(s.worker) && WorkerStep(Write) && Enabled(s, Write);
      case DrainReturning(_, _) => assert WorkerStep(Put) && Enabled(s, Put);
      case Syncing(_) => assert WorkerStep(Sync) && Enabled(s, Sync);
      case Destroying => assert WorkerStep(Destroy) && Enabled(s, Destroy);
      case Finishing(_) => assert WorkerStep(Done) && Enabled(s, Done);
      case Stopped => assert false;
    }
  }

  /** A producer inside writeMsg can go on, or the channel is full and the worker can make room. */
  lemma ProducersMove(s: State, p: nat)
    requires Inv(s) && p < |s.producers| && s.producers[p] != Quiet
    ensures || (exists e :: Enabled(s, Fill(p, e)))
            || Enabled(s, Send(p))
            || (|s.chan| == s.cap && exists a :: (WorkerStep(a) || CallerStep(a)) && Enabled(s, a))
  {
    assert Apart(s, p);
    match s.producers[p] {
      case Filling(r) => assert Enabled(s, Fill(p, BLANK));
      case Sending(r) =>
        assert r in HeldBy(s.producers[p]);
        if |s.chan| == s.cap {
          RoomIsMade(s);
        }
    }
  }

  /** With a full channel the worker or the caller can move. */
  lemma RoomIsMade(s: State)
    requires Inv(s) && |s.chan| == s.cap
    requires exists p :: 0 <= p < |s.producers| && s.producers[p] != Quiet
    ensures exists a :: (WorkerStep(a) || CallerStep(a)) && Enabled(s, a)
  {
    if s.caller != Free {
      assert s.caller != Closed;
      NoDeadlock(s);
    } else {
      match s.worker {
        case Selecting => assert WorkerStep(Receive) && Enabled(s, Receive);
        case Writing(r) => assert r in HeldByWorker(s.worker) && WorkerStep(Write) && Enabled(s, Write);
        case Returning(_) => assert WorkerStep(Put) && Enabled(s, Put);
      }
    }
  }

  /** Every message object that was not collected is in the pool, in the channel, or in somebody's hand. */
  predicate Accounted(s: State, acts: seq<Step>, i: nat)
    requires i <= |acts|
  {
    forall r :: r in s.heap ==>
                  || r in s.pool || r in s.chan || r in HeldByWorker(s.worker)
                  || (exists p :: 0 <= p < |s.producers| && r in HeldBy(s.producers[p]))
                  || (exists k :: 0 <= k < i && acts[k] == Collect(r))
  }

  lemma AccountedStep(s: State, acts: seq<Step>, i: nat, r: Ref)
    requires i < |acts| && Enabled(s, acts[i]) && Accounted(s, acts, i)
    requires r in Apply(s, acts[i]).heap
    ensures var s' := Apply(s, acts[i]);
            || r in s'.pool || r in s'.chan || r in HeldByWorker(s'.worker)
            || (exists p :: 0 <= p < |s'.producers| && r in HeldBy(s'.producers[p]))
            || (exists k :: 0 <= k < i + 1 && acts[k] == Collect(r))
  {
    var a, s' := acts[i], Apply(s, acts[i]);
    if a.GetPooled? || a.GetNew? {
      assert s'.producers[a.p] == Filling(a.r) && a.r in HeldBy(s'.producers[a.p]);
    } else if a.Fill? {
      assert HeldBy(s'.producers[a.p]) == HeldBy(s.producers[a.p]);
    } else if a.Send? {
      assert s'.chan[|s.chan|] == s.producers[a.p].r;
      assert r in s.chan ==> r in s'.chan;
    } else if a == Receive || a == Take {
      assert s.chan == [s.chan[0]] + s'.chan;
    }
    if r in s.heap && exists p :: 0 <= p < |s.producers| && r in HeldBy(s.producers[p]) {
      var p :| 0 <= p < |s.producers| && r in HeldBy(s.producers[p]);
      assert s'.producers[p] == s.producers[p] || ((a.Fill? || a.Send?) && a.p == p);
    }
  }

  function WorkerWork(w: Worker): nat {
    match w
    case Selecting => 0
    case Stopped => 0
    case Returning(_) => 1
    case Writing(_) => 2
    case Finishing(_) => 2
    case Destroying => 3
    case Syncing(_) => 4
    case Testing(_) => 5
    case Taking(_) => 4
    case DrainReturning(_, _) => 6
    case DrainWriting(_, _) => 7
  }

  function CallerWork(c: Caller): nat {
    match c
    case Signalling(_) => 15
    case Waiting(_) => 2
    case Adding => 1
    case Closing => 1
    case _ => 0
  }

  /** Steps left for worker and caller, as long as nothing more is sent. */
  function Work(s: State): nat {
    6 * |s.chan| + 10 * |s.signals| + WorkerWork(s.worker) + CallerWork(s.caller)
  }

  /** Each step of the worker or the caller uses up work, and only a send or a call adds any. */
  lemma WorkDecreases(s: State, a: Step)
    requires Enabled(s, a) && !a.Call?
    ensures WorkerStep(a) || CallerStep(a) ==> Work(Apply(s, a)) < Work(s)
    ensures !a.Send? ==> Work(Apply(s, a)) <= Work(s)
  {
    if WorkerStep(a) {
      WorkerWorks(s, a);
    } else if CallerStep(a) {
      CallerWorks(s, a);
    } else {
      match a {
        case GetPooled(_, _) =>
        case GetNew(_, _) =>
        case Fill(_, _) =>
        case Send(_) =>
        case Collect(_) =>
      }
    }
  }

  lemma WorkerWorks(s: State, a: Step)
    requires Enabled(s, a) && WorkerStep(a)
    ensures Work(Apply(s, a)) < Work(s)
  {
    match a {
      case Receive =>
      case Write =>
      case Put =>
      case TakeSignal =>
      case TestLen =>
      case Take =>
      case Sync =>
      case Destroy =>
      case Done =>
    }
  }

  lemma CallerWorks(s: State, a: Step)
    requires Enabled(s, a) && CallerStep(a)
    ensures Work(Apply(s, a)) < Work(s)
  {
    match a {
      case SendSignal =>
      case Waited =>
      case Add =>
      case CloseChannels =>
    }
  }

  /** How many of the steps i up to j are the worker's or the caller's. */
  function Moves(acts: seq<Step>, i: nat, j: nat): nat
    requires i <= j <= |acts|
    decreases j
  {
    if i == j then 0
    else Moves(acts, i, j - 1) + (if WorkerStep(acts[j - 1]) || CallerStep(acts[j - 1]) then 1 else 0)
  }

  /** The producers pause, and nobody calls Flush or Close again. */
  predicate Pause(acts: seq<Step>, i: nat, j: nat)
    requires i <= j <= |acts|
  {
    forall k :: i <= k < j ==> !acts[k].Send? && !acts[k].Call?
  }

  lemma {:induction false} MovesUseWork(ss: seq<State>, acts: seq<Step>, i: nat, j: nat)
    requires Run(ss, acts) && i <= j <= |acts| && Pause(acts, i, j)
    ensures Moves(acts, i, j) + Work(ss[j]) <= Work(ss[i])
    decreases j
  {
    if i == j {
    } else {
      hide Enabled, Apply, Work;
      MovesUseWork(ss, acts, i, j - 1);
      assert Taken(ss, acts, j - 1);
      WorkDecreases(ss[j - 1], acts[j - 1]);
    }
  }

  /** There is never more work than a full channel, one signal and one step in hand can make. */
  lemma WorkBound(s: State)
    requires Inv(s)
    ensures Work(s) <= 6 * s.cap + 32
  {
    assert |s.signals| <= 1;
  }

  /**
   * The call returns: while the producers pause, worker and caller take at most the steps that the
   * work at the beginning of the pause allows, and when neither can take another, or the work is used
   * up, nobody is inside Flush or Close any more.
   */
  lemma CallReturns(ss: seq<State>, acts: seq<Step>, i: nat, j: nat)
    requires Run(ss, acts) && i <= j <= |acts| && Pause(acts, i, j)
    ensures Moves(acts, i, j) <= Work(ss[i]) <= 6 * ss[i].cap + 32
    ensures || Moves(acts, i, j) == Work(ss[i])
            || (forall a :: WorkerStep(a) || CallerStep(a) ==> !Enabled(ss[j], a))
            ==> ss[j].caller == Free || ss[j].caller == Closed
  {
    MovesUseWork(ss, acts, i, j);
    RunInv(ss, acts, i);
    RunInv(ss, acts, j);
    WorkBound(ss[i]);
    hide Enabled, Inv, Run;
    if ss[j].caller != Free && ss[j].caller != Closed {
      NoDeadlock(ss[j]);
    }
  }

  // ------------------------------------------------------------------ single calls

  /** Any capacity and any number of producers may be started with. */
  lemma Starts(cap: nat, n: nat)
    requires cap > 0
    ensures var quiet := seq(n, p requires 0 <= p < n => Quiet);
            Initial(State(cap, map[], {}, quiet, [], Selecting, [], 1, Free, [], [], 0))
  {
  }

  /** An undisturbed call of writeMsg puts exactly its entry into the channel and returns. */
  lemma LogsOnce(s: State, get: Step, e: Entry)
    requires Inv(s) && Enabled(s, get) && (get.GetPooled? || get.GetNew?) && |s.chan| < s.cap
    ensures var s1 := Apply(s, get);
            && Enabled(s1, Fill(get.p, e))
            && var s2 := Apply(s1, Fill(get.p, e));
               && Enabled(s2, Send(get.p))
               && var s3 := Apply(s2, Send(get.p));
                  && s3.producers == s.producers && s3.sent == s.sent + [e] && s3.written == s.written
                  && s3.chan == s.chan + [get.r] && s3.heap[get.r] == e
  {
    hide Owned, Ordered, Handshake, ClosingQuiet;
    assert get.GetPooled? ==> get.r in s.heap by {
      Pooled(s);
    }
  }

  lemma Pooled(s: State)
    requires Inv(s)
    ensures forall r :: r in s.pool ==> r in s.heap
  {
  }

  /** The garbage collector takes pooled objects, and only those. */
  lemma Collected(s: State, r: Ref)
    ensures Enabled(s, Collect(r)) <==> r in s.pool
    ensures r in s.pool ==> Apply(s, Collect(r)) == s.(pool := s.pool - {r})
  {
  }
}
