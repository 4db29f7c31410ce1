/** The session store of services/hsessionsvs: a cache over the token table, with a cap per user. */
module Sessions {
  import opened Wrappers

  /** SvsSessionToken; the table keeps rows in the order of their primary key. */
  datatype Token = Token(value: string, agent: string, ip: string, user: string, validity: int)

  datatype Config = Config(sessionsPerUser: nat, checkIP: bool, checkUser: bool, checkAgent: bool, magic: string)

  datatype VerifyRequest = VerifyRequest(token: string, user: Option<string>, ip: Option<string>, agent: Option<string>)

  datatype Verdict = Accepted | Rejected | Unavailable

  /** Table rows by id, cache by token value. */
  datatype Store = Store(table: seq<Token>, cache: map<string, Token>)

  /** Whether the n-th database call from now succeeds; a failing call has no effect. */
  type Calls = nat -> bool

  // ------------------------------------------------------------------ specification

  function RowsOf(table: seq<Token>, user: string): seq<Token> {
    if table == [] then []
    else (if table[0].user == user then [table[0]] else []) + RowsOf(table[1..], user)
  }

  function RowsOfOthers(table: seq<Token>, user: string): seq<Token> {
    if table == [] then []
    else (if table[0].user == user then [] else [table[0]]) + RowsOfOthers(table[1..], user)
  }

  function WithoutValue(table: seq<Token>, value: string): seq<Token> {
    if table == [] then []
    else (if table[0].value == value then [] else [table[0]]) + WithoutValue(table[1..], value)
  }

  /** gorm's First: the matching row with the smallest id. */
  function FirstWithValue(table: seq<Token>, value: string): (r: Option<Token>)
    ensures r.Some? ==> r.value in table && r.value.value == value
    ensures r.None? ==> forall t :: t in table ==> t.value != value
  {
    if table == [] then None
    else if table[0].value == value then Some(table[0])
    else FirstWithValue(table[1..], value)
  }

  /** deleteToken: the cache entry always goes, the row if the database call succeeds. */
  function Deleted(s: Store, value: string, up: bool): Store {
    Store(if up then WithoutValue(s.table, value) else s.table, s.cache - {value})
  }

  /** Rounds of the eviction loop; round i uses database calls first and first + 1. */
  function Evicted(s: Store, user: string, rounds: nat, up: Calls, first: nat): (Store, nat)
    decreases rounds
  {
    if rounds == 0 then (s, first)
    else
      var mine := RowsOf(s.table, user);
      if up(first) && mine != [] then
        Evicted(Deleted(s, mine[0].value, up(first + 1)), user, rounds - 1, up, first + 2)
      else Evicted(s, user, rounds - 1, up, first + 1)
  }

  /** How many rows CreateToken tries to evict from c. */
  function Rounds(cfg: Config, c: nat): nat {
    if c >= cfg.sessionsPerUser then c - cfg.sessionsPerUser + 1 else 0
  }

  /** CreateToken: count, evict down to one below the cap, save, and cache what was saved. */
  function Created(cfg: Config, s: Store, t: Token, up: Calls): (Store, bool) {
    if !up(0) then (s, false)
    else
      var (s1, n) := Evicted(s, t.user, Rounds(cfg, |RowsOf(s.table, t.user)|), up, 1);
      if !up(n) then (s1, false)
      else (Store(s1.table + [t], s1.cache[t.value := t]), true)
  }

  /** checkToken. */
  predicate Passes(cfg: Config, t: Token, req: VerifyRequest, now: int) {
    && (cfg.checkIP ==> req.ip == Some(t.ip))
    && (cfg.checkUser ==> req.user == Some(t.user))
    && (cfg.checkAgent ==> req.agent == Some(t.agent))
    && t.validity >= now
  }

  predicate IsMagic(cfg: Config, token: string) {
    cfg.magic != "" && cfg.magic == token
  }

  function Judged(cfg: Config, t: Token, req: VerifyRequest, now: int): Verdict {
    if Passes(cfg, t, req, now) then Accepted else Rejected
  }

  /** VerifyToken: magic token, then cache, then table. */
  function Verified(cfg: Config, s: Store, req: VerifyRequest, now: int, up: bool): (Store, Verdict) {
    if IsMagic(cfg, req.token) then (s, Accepted)
    else if req.token in s.cache then (s, Judged(cfg, s.cache[req.token], req, now))
    else if !up then (s, Unavailable)
    else
      match FirstWithValue(s.table, req.token)
      case None => (s, Rejected)
      case Some(t) => (s.(cache := s.cache[req.token := t]), Judged(cfg, t, req, now))
  }

  /** What the table alone says of a token. */
  function TableVerdict(cfg: Config, table: seq<Token>, req: VerifyRequest, now: int): Verdict {
    if IsMagic(cfg, req.token) then Accepted
    else
      match FirstWithValue(table, req.token)
      case None => Rejected
      case Some(t) => Judged(cfg, t, req, now)
  }

  // ------------------------------------------------------------------ the service

  class Service {
    const cfg: Config
    var table: seq<Token>
    var cache: map<string, Token>

    constructor (cfg: Config)
      ensures this.cfg == cfg && table == [] && cache == map[]
    {
      this.cfg := cfg;
      table, cache := [], map[];
    }

    ghost function Contents(): Store
      reads this
    {
      Store(table, cache)
    }

    method DeleteToken(token: string, up: bool)
      modifies this
      ensures Contents() == Deleted(old(Contents()), token, up)
    {
      cache := cache - {token};
      if up {
        var kept := [];
        for i := 0 to |table|
          invariant table == old(table) && cache == old(cache) - {token}
          invariant WithoutValue(table, token) == kept + WithoutValue(table[i..], token)
        {
          assert table[i..][1..] == table[i + 1..];
          if table[i].value != token {
            kept := kept + [table[i]];
          }
        }
        assert table[|table|..] == [];
        table := kept;
      }
    }

    method CreateToken(t: Token, up: Calls) returns (ok: bool)
      modifies this
      ensures (Contents(), ok) == Created(cfg, old(Contents()), t, up)
    {
      if !up(0) {
        return false;
      }
      var c := |RowsOf(table, t.user)|;
      var n := 1;
      if c >= cfg.sessionsPerUser {
        var i := 0;
        ghost var rounds := c - cfg.sessionsPerUser + 1;
        while i <= c - cfg.sessionsPerUser
          invariant 0 <= i <= rounds
          invariant Evicted(old(Contents()), t.user, rounds, up, 1) == Evicted(Contents(), t.user, rounds - i, up, n)
        {
          var mine := RowsOf(table, t.user);
          if !up(n) || mine == [] {
            n := n + 1;
          } else {
            DeleteToken(mine[0].value, up(n + 1));
            n := n + 2;
          }
          i := i + 1;
        }
      }
      if !up(n) {
        return false;
      }
      table := table + [t];
      cache := cache[t.value := t];
      return true;
    }

    method RevokeToken(token: string, up: bool)
      modifies this
      ensures Contents() == Deleted(old(Contents()), token, up)
    {
      DeleteToken(token, up);
    }

    method VerifyToken(req: VerifyRequest, now: int, up: bool) returns (v: Verdict)
      modifies this
      ensures (Contents(), v) == Verified(cfg, old(Contents()), req, now, up)
    {
      if IsMagic(cfg, req.token) {
        return Accepted;
      }
      if req.token in cache {
        return Judged(cfg, cache[req.token], req, now);
      }
      if !up {
        return Unavailable;
      }
      var row := FirstWithValue(table, req.token);
      if row.None? {
        return Rejected;
      }
      cache := cache[req.token := row.value];
      return Judged(cfg, row.value, req, now);
    }
  }

  // ------------------------------------------------------------------ the cap

  predicate UniqueValues(table: seq<Token>) {
    forall i, j :: 0 <= i < j < |table| ==> table[i].value != table[j].value
  }

  lemma {:induction false} RowsOfLaws(table: seq<Token>, user: string)
    ensures forall t :: t in RowsOf(table, user) <==> t in table && t.user == user
    ensures forall t :: t in RowsOfOthers(table, user) <==> t in table && t.user != user
    ensures |RowsOf(table, user)| + |RowsOfOthers(table, user)| == |table|
  {
    if table == [] {
    } else {
      RowsOfLaws(table[1..], user);
    }
  }

  lemma {:induction false} RowsOfSnoc(table: seq<Token>, t: Token, user: string)
    ensures RowsOf(table + [t], user) == RowsOf(table, user) + (if t.user == user then [t] else [])
    ensures RowsOfOthers(table + [t], user) == RowsOfOthers(table, user) + (if t.user == user then [] else [t])
  {
    if table == [] {
      assert table + [t] == [t];
    } else {
      assert (table + [t])[1..] == table[1..] + [t];
      RowsOfSnoc(table[1..], t, user);
    }
  }

  lemma {:induction false} WithoutAbsent(table: seq<Token>, value: string)
    requires forall t :: t in table ==> t.value != value
    ensures WithoutValue(table, value) == table
  {
    if table == [] {
    } else {
      forall t | t in table[1..]
        ensures t.value != value
      {
        assert t in table;
      }
      WithoutAbsent(table[1..], value);
    }
  }

  lemma {:induction false} WithoutMembers(table: seq<Token>, value: string)
    ensures forall t :: t in WithoutValue(table, value) <==> t in table && t.value != value
    ensures UniqueValues(table) ==> UniqueValues(WithoutValue(table, value))
  {
    if table == [] {
    } else {
      WithoutMembers(table[1..], value);
      assert UniqueValues(table) ==> UniqueValues(table[1..]);
      var rest := WithoutValue(table[1..], value);
      assert forall k :: 0 <= k < |rest| ==> rest[k] in table[1..];
    }
  }

  lemma UniqueTail(table: seq<Token>)
    requires UniqueValues(table) && table != []
    ensures UniqueValues(table[1..]) && forall t :: t in table[1..] ==> t.value != table[0].value
  {
    forall t | t in table[1..]
      ensures t.value != table[0].value
    {
      var k :| 0 <= k < |table[1..]| && table[1..][k] == t;
      assert table[k + 1] == t;
    }
  }

  /** Deleting a user's first row by its value takes exactly that row. */
  lemma {:induction false} DeleteFirst(table: seq<Token>, user: string)
    requires UniqueValues(table) && RowsOf(table, user) != []
    ensures RowsOf(WithoutValue(table, RowsOf(table, user)[0].value), user) == RowsOf(table, user)[1..]
    ensures RowsOfOthers(WithoutValue(table, RowsOf(table, user)[0].value), user) == RowsOfOthers(table, user)
  {
    var rest := table[1..];
    UniqueTail(table);
    hide UniqueValues;
    if table[0].user == user {
      WithoutAbsent(rest, table[0].value);
      assert RowsOf(table, user) == [table[0]] + RowsOf(rest, user);
      assert RowsOfOthers(table, user) == [] + RowsOfOthers(rest, user) == RowsOfOthers(rest, user);
      assert WithoutValue(table, table[0].value) == [] + WithoutValue(rest, table[0].value) == rest;
    } else {
      assert RowsOf(table, user) == RowsOf(rest, user);
      var value := RowsOf(rest, user)[0].value;
      RowsOfLaws(rest, user);
      assert table[0].value != value;
      DeleteFirst(rest, user);
      var kept := WithoutValue(rest, value);
      assert WithoutValue(table, value) == [table[0]] + kept;
      assert ([table[0]] + kept)[1..] == kept;
    }
  }

  /** How many rounds remove a row: those whose read and whose delete both succeed. */
  function Removals(rounds: nat, up: Calls, first: nat): (r: nat)
    ensures r <= rounds
    decreases rounds
  {
    if rounds == 0 then 0
    else if !up(first) then Removals(rounds - 1, up, first + 1)
    else (if up(first + 1) then 1 else 0) + Removals(rounds - 1, up, first + 2)
  }

  lemma {:induction false} RemovesAll(rounds: nat, up: Calls, first: nat)
    ensures Removals(rounds, up, first) == rounds <==> forall n :: first <= n < first + 2 * rounds ==> up(n)
    decreases rounds
  {
    if rounds == 0 {
    } else if up(first) {
      RemovesAll(rounds - 1, up, first + 2);
    }
  }

  /** Eviction takes as many of the user's oldest rows as rounds succeed, and nobody else's. */
  lemma {:induction false} EvictedLaws(s: Store, user: string, rounds: nat, up: Calls, first: nat)
    requires UniqueValues(s.table) && rounds <= |RowsOf(s.table, user)|
    ensures var s1 := Evicted(s, user, rounds, up, first).0;
            && RowsOf(s1.table, user) == RowsOf(s.table, user)[Removals(rounds, up, first)..]
            && RowsOfOthers(s1.table, user) == RowsOfOthers(s.table, user)
    decreases rounds
  {
    var mine := RowsOf(s.table, user);
    hide RowsOf, RowsOfOthers, WithoutValue, UniqueValues;
    if rounds == 0 {
    } else {
      if !up(first) {
        EvictedLaws(s, user, rounds - 1, up, first + 1);
      } else if !up(first + 1) {
        EvictedLaws(Deleted(s, mine[0].value, false), user, rounds - 1, up, first + 2);
      } else {
        DeleteFirst(s.table, user);
        WithoutMembers(s.table, mine[0].value);
        EvictedLaws(Deleted(s, mine[0].value, true), user, rounds - 1, up, first + 2);
        assert mine[1..][Removals(rounds - 1, up, first + 2)..] == mine[Removals(rounds, up, first)..];
      }
    }
  }

  /**
   * Whatever database calls fail, a CreateToken that reports success leaves the user with the new token
   * behind the newest earlier ones, one of the oldest gone for every round of the eviction that
   * succeeded, and the other users' rows as they were.
   */
  lemma CreatedRows(cfg: Config, s: Store, t: Token, up: Calls)
    requires UniqueValues(s.table) && cfg.sessionsPerUser > 0
    ensures var (s1, ok) := Created(cfg, s, t, up);
            var before, after := RowsOf(s.table, t.user), RowsOf(s1.table, t.user);
            var left := before[Removals(Rounds(cfg, |before|), up, 1)..];
            && (ok ==> up(0) && after == left + [t])
            && (!ok ==> after == if up(0) then left else before)
            && RowsOfOthers(s1.table, t.user) == RowsOfOthers(s.table, t.user)
  {
    var rounds := Rounds(cfg, |RowsOf(s.table, t.user)|);
    EvictedLaws(s, t.user, rounds, up, 1);
    RowsOfSnoc(Evicted(s, t.user, rounds, up, 1).0.table, t, t.user);
  }

  /**
   * The cap: after a CreateToken that reports success the user has at most SessionsPerUser tokens
   * exactly when there was room or every call of the eviction, reads and deletes, succeeded.
   */
  lemma SessionCap(cfg: Config, s: Store, t: Token, up: Calls)
    requires UniqueValues(s.table) && cfg.sessionsPerUser > 0
    requires Created(cfg, s, t, up).1
    ensures var c := |RowsOf(s.table, t.user)|;
            |RowsOf(Created(cfg, s, t, up).0.table, t.user)| <= cfg.sessionsPerUser
            <==>
            c < cfg.sessionsPerUser || forall n :: 1 <= n < 1 + 2 * (c - cfg.sessionsPerUser + 1) ==> up(n)
  {
    CreatedRows(cfg, s, t, up);
    RemovesAll(Rounds(cfg, |RowsOf(s.table, t.user)|), up, 1);
  }

  /** The second call, the delete of the first round, fails. */
  predicate DeleteFails(n: nat) {
    n != 2
  }

  /** With a cap of one and that call failing, the earlier token stays beside the new one. */
  lemma CapExceeded(s: Store, t: Token, t': Token)
    requires s.table == [t] && t'.user == t.user
    ensures var (s1, ok) := Created(Config(1, false, false, false, ""), s, t', DeleteFails);
            ok && RowsOf(s1.table, t.user) == [t, t']
  {
    var cfg := Config(1, false, false, false, "");
    assert RowsOf(s.table, t.user) == [t] + RowsOf([], t.user) == [t] by {
      assert s.table[1..] == [];
    }
    assert Evicted(Deleted(s, t.value, false), t.user, 0, DeleteFails, 3).1 == 3;
    assert Evicted(s, t.user, 1, DeleteFails, 1).1 == 3;
    assert Removals(1, DeleteFails, 1) == 0;
    CreatedRows(cfg, s, t', DeleteFails);
    assert [t][0..] + [t'] == [t, t'];
  }

  // ------------------------------------------------------------------ runs

  /** One slot, atomically, or the cache dropping an entry at any time. */
  datatype Step =
    | Create(t: Token, up: Calls)
    | Revoke(token: string, ok: bool)
    | Verify(req: VerifyRequest, now: int, ok: bool)
    | Drop(token: string)

  /** used: every token value generated so far; a new one is a fresh UUID. */
  datatype World = World(store: Store, used: set<string>)

  predicate Enabled(w: World, a: Step) {
    a.Create? ==> a.t.value !in w.used
  }

  function Apply(cfg: Config, w: World, a: Step): World {
    match a
    case Create(t, up) => World(Created(cfg, w.store, t, up).0, w.used + {t.value})
    case Revoke(token, ok) => w.(store := Deleted(w.store, token, ok))
    case Verify(req, now, ok) => w.(store := Verified(cfg, w.store, req, now, ok).0)
    case Drop(token) => w.(store := w.store.(cache := w.store.cache - {token}))
  }

  /** Every cached token is the table's row of that value; values are unique and were generated. */
  predicate Coherent(s: Store, used: set<string>) {
    && UniqueValues(s.table)
    && (forall t :: t in s.table ==> t.value in used)
    && (forall v :: v in s.cache ==> s.cache[v].value == v && s.cache[v] in s.table)
  }

  lemma DeletedCoherent(s: Store, used: set<string>, value: string, up: bool)
    requires Coherent(s, used)
    ensures Coherent(Deleted(s, value, up), used)
  {
    WithoutMembers(s.table, value);
  }

  lemma {:induction false} EvictedCoherent(s: Store, used: set<string>, user: string, rounds: nat, up: Calls,
                                           first: nat)
    requires Coherent(s, used)
    ensures Coherent(Evicted(s, user, rounds, up, first).0, used)
    decreases rounds
  {
    if rounds == 0 {
    } else {
      var mine := RowsOf(s.table, user);
      if up(first) && mine != [] {
        DeletedCoherent(s, used, mine[0].value, up(first + 1));
        EvictedCoherent(Deleted(s, mine[0].value, up(first + 1)), used, user, rounds - 1, up, first + 2);
      } else {
        EvictedCoherent(s, used, user, rounds - 1, up, first + 1);
      }
    }
  }

  lemma CoherentStep(cfg: Config, w: World, a: Step)
    requires Coherent(w.store, w.used) && Enabled(w, a)
    ensures Coherent(Apply(cfg, w, a).store, Apply(cfg, w, a).used)
  {
    match a {
      case Create(t, up) =>
        var rounds := Rounds(cfg, |RowsOf(w.store.table, t.user)|);
        EvictedCoherent(w.store, w.used, t.user, rounds, up, 1);
      case Revoke(token, ok) => DeletedCoherent(w.store, w.used, token, ok);
      case Verify(_, _, _) =>
      case Drop(_) =>
    }
  }

  predicate Run(cfg: Config, ws: seq<World>, acts: seq<Step>) {
    && |ws| == |acts| + 1
    && ws[0] == World(Store([], map[]), {})
    && forall i :: 0 <= i < |acts| ==> Taken(cfg, ws, acts, i)
  }

  predicate Taken(cfg: Config, ws: seq<World>, acts: seq<Step>, i: nat)
    requires i < |acts| && i + 1 < |ws|
  {
    Enabled(ws[i], acts[i]) && ws[i + 1] == Apply(cfg, ws[i], acts[i])
  }

  lemma {:induction false} RunCoherent(cfg: Config, ws: seq<World>, acts: seq<Step>, i: nat)
    requires Run(cfg, ws, acts) && i < |ws|
    ensures Coherent(ws[i].store, ws[i].used)
  {
    if i == 0 {
    } else {
      RunCoherent(cfg, ws, acts, i - 1);
      assert Taken(cfg, ws, acts, i - 1);
      CoherentStep(cfg, ws[i - 1], acts[i - 1]);
    }
  }

  lemma {:induction false} FirstIs(table: seq<Token>, t: Token)
    requires UniqueValues(table) && t in table
    ensures FirstWithValue(table, t.value) == Some(t)
  {
    if table[0] != t {
      var k :| 0 <= k < |table| && table[k] == t;
      assert table[0].value != table[k].value;
      assert table[1..][k - 1] == t;
      FirstIs(table[1..], t);
    }
  }

  /**
   * The cache is transparent: in every reachable state VerifyToken gives the verdict of the table
   * alone; a failing read can only make it unavailable, and only when nothing is cached.
   */
  lemma CacheTransparent(cfg: Config, ws: seq<World>, acts: seq<Step>, i: nat, req: VerifyRequest, now: int, up: bool)
    requires Run(cfg, ws, acts) && i < |ws|
    ensures var (_, v) := Verified(cfg, ws[i].store, req, now, up);
            v == TableVerdict(cfg, ws[i].store.table, req, now)
            || (v == Unavailable && !up && req.token !in ws[i].store.cache)
  {
    RunCoherent(cfg, ws, acts, i);
    if req.token in ws[i].store.cache {
      FirstIs(ws[i].store.table, ws[i].store.cache[req.token]);
    }
  }

  /** A generated value that has no row never gets one again. */
  predicate Gone(w: World, value: string) {
    value in w.used && forall t :: t in w.store.table ==> t.value != value
  }

  lemma {:induction false} EvictedShrinks(s: Store, user: string, rounds: nat, up: Calls, first: nat)
    ensures forall t :: t in Evicted(s, user, rounds, up, first).0.table ==> t in s.table
    decreases rounds
  {
    if rounds == 0 {
    } else {
      var mine := RowsOf(s.table, user);
      if up(first) && mine != [] {
        WithoutMembers(s.table, mine[0].value);
        EvictedShrinks(Deleted(s, mine[0].value, up(first + 1)), user, rounds - 1, up, first + 2);
      } else {
        EvictedShrinks(s, user, rounds - 1, up, first + 1);
      }
    }
  }

  lemma GoneStep(cfg: Config, w: World, a: Step, value: string)
    requires Gone(w, value) && Enabled(w, a)
    ensures Gone(Apply(cfg, w, a), value)
  {
    match a {
      case Create(t, up) =>
        var rounds := Rounds(cfg, |RowsOf(w.store.table, t.user)|);
        EvictedShrinks(w.store, t.user, rounds, up, 1);
      case Revoke(token, ok) => WithoutMembers(w.store.table, token);
      case Verify(_, _, _) =>
      case Drop(_) =>
    }
  }

  lemma {:induction false} GoneStays(cfg: Config, ws: seq<World>, acts: seq<Step>, i: nat, j: nat, value: string)
    requires Run(cfg, ws, acts) && i <= j < |ws| && Gone(ws[i], value)
    ensures Gone(ws[j], value)
    decreases j
  {
    if i == j {
    } else {
      GoneStays(cfg, ws, acts, i, j - 1, value);
      assert Taken(cfg, ws, acts, j - 1);
      GoneStep(cfg, ws[j - 1], acts[j - 1], value);
    }
  }

  /** A token that was issued and then successfully revoked is never accepted again, unless it is magic. */
  lemma RevokedForGood(cfg: Config, ws: seq<World>, acts: seq<Step>, i: nat, j: nat,
                       req: VerifyRequest, now: int, up: bool)
    requires Run(cfg, ws, acts) && i < j < |ws|
    requires acts[i] == Revoke(req.token, true) && req.token in ws[i].used && !IsMagic(cfg, req.token)
    ensures Verified(cfg, ws[j].store, req, now, up).1 != Accepted
  {
    WithoutMembers(ws[i].store.table, req.token);
    assert Taken(cfg, ws, acts, i);
    GoneStays(cfg, ws, acts, i + 1, j, req.token);
    CacheTransparent(cfg, ws, acts, j, req, now, up);
  }

  // ------------------------------------------------------------------ who is let in

  /** The row is alive, and what the configuration checks agrees. */
  predicate Admits(cfg: Config, t: Token, req: VerifyRequest, now: int) {
    && t.value == req.token
    && now <= t.validity
    && (cfg.checkIP ==> req.ip.Some? && req.ip.value == t.ip)
    && (cfg.checkUser ==> req.user.Some? && req.user.value == t.user)
    && (cfg.checkAgent ==> req.agent.Some? && req.agent.value == t.agent)
  }

  /**
   * In every reachable state, with the database up, a token is accepted exactly when it is the magic
   * token, or has a row that has not expired and agrees with the request in all that is checked.
   */
  lemma AcceptedExactly(cfg: Config, ws: seq<World>, acts: seq<Step>, i: nat, req: VerifyRequest, now: int)
    requires Run(cfg, ws, acts) && i < |ws|
    ensures var v := Verified(cfg, ws[i].store, req, now, true).1;
            && (v == Accepted <==>
                  || (cfg.magic != "" && req.token == cfg.magic)
                  || exists t :: t in ws[i].store.table && Admits(cfg, t, req, now))
            && v != Unavailable
  {
    RunCoherent(cfg, ws, acts, i);
    CacheTransparent(cfg, ws, acts, i, req, now, true);
    var table := ws[i].store.table;
    forall t | t in table && t.value == req.token
      ensures FirstWithValue(table, req.token) == Some(t)
    {
      FirstIs(table, t);
    }
  }

  /** A new token is cached, so its holder is let in even when the database is down. */
  lemma NewTokenIsCached(cfg: Config, s: Store, t: Token, up: Calls, req: VerifyRequest, now: int, up': bool)
    requires Created(cfg, s, t, up).1 && req.token == t.value
    ensures Verified(cfg, Created(cfg, s, t, up).0, req, now, up').1
         == if IsMagic(cfg, req.token) || Admits(cfg, t, req, now) then Accepted else Rejected
  {
  }

  /** A table hit is cached: the same request gets the same verdict when the database goes down. */
  lemma HitIsCached(cfg: Config, s: Store, req: VerifyRequest, now: int)
    requires exists t :: t in s.table && t.value == req.token
    ensures var (s1, v) := Verified(cfg, s, req, now, true);
            Verified(cfg, s1, req, now, false) == (s1, v) && v != Unavailable
  {
  }

  /** Revoking takes the token's row and its cache entry, nothing else; with the database down, the entry only. */
  lemma RevokedOnly(s: Store, value: string)
    ensures forall t :: t in Deleted(s, value, true).table <==> t in s.table && t.value != value
    ensures Deleted(s, value, false).table == s.table
    ensures forall up, v :: v in Deleted(s, value, up).cache <==> v in s.cache && v != value
    ensures forall up, v :: v in Deleted(s, value, up).cache ==> Deleted(s, value, up).cache[v] == s.cache[v]
  {
    WithoutMembers(s.table, value);
  }

  /** A slot does in a run what it does by itself, and a dropped entry is read from the table again. */
  lemma SlotsInRuns(cfg: Config, w: World, t: Token, up: Calls, req: VerifyRequest, now: int, ok: bool)
    requires t.value !in w.used
    ensures Enabled(w, Create(t, up)) && Enabled(w, Revoke(req.token, ok))
    ensures Enabled(w, Verify(req, now, ok)) && Enabled(w, Drop(req.token))
    ensures Apply(cfg, w, Create(t, up)).store == Created(cfg, w.store, t, up).0
    ensures Apply(cfg, w, Revoke(req.token, ok)).store == Deleted(w.store, req.token, ok)
    ensures Apply(cfg, w, Verify(req, now, ok)).store == Verified(cfg, w.store, req, now, ok).0
    ensures var s := Apply(cfg, w, Drop(req.token)).store;
            && s.table == w.store.table
            && (forall v :: v in s.cache <==> v in w.store.cache && v != req.token)
            && Verified(cfg, s, req, now, true).1 == TableVerdict(cfg, s.table, req, now)
  {
  }
}
