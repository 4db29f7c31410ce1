/** Account lockout in services/hapauthsvs/slots.go: what the slots do to one existing user's record. */
module Lockout {

  /** The stored columns that decide lockout. */
  datatype User = User(locked: bool, fails: int)

  datatype Answer = Passed | WrongPassword | Denied

  /** saved: the final database save succeeds. expired: the lock time has run out when Login looks. */
  datatype Step =
    | Login(right: bool, expired: bool, saved: bool)
    | CheckLogin(saved: bool)
    | ChangePwd(right: bool, strong: bool, saved: bool)
    | LockUser(saved: bool)
    | UnlockUser(saved: bool)
    | ResetPwd(saved: bool)

  // ------------------------------------------------------------------ specification

  function Failed(u: User, limit: int): User {
    User(u.locked || u.fails + 1 >= limit, u.fails + 1)
  }

  function Stored(u: User, u': User, saved: bool): User {
    if saved then u' else u
  }

  function Apply(limit: int, u: User, a: Step): (User, Answer) {
    match a
    case Login(right, expired, saved) =>
      if u.locked && !expired then (u, Denied)
      else if !right then (Stored(u, Failed(u.(locked := false), limit), saved), WrongPassword)
      else (Stored(u, User(false, 0), saved), Passed)
    case CheckLogin(saved) => (Stored(u, u.(fails := 0), saved), Passed)
    case ChangePwd(right, strong, saved) =>
      if u.locked then (u, Denied)
      else if !right then (Stored(u, Failed(u, limit), saved), WrongPassword)
      else (u, if strong then Passed else Denied)
    case LockUser(saved) => (Stored(u, u.(locked := true), saved), Passed)
    case UnlockUser(saved) => (Stored(u, User(false, 0), saved), Passed)
    case ResetPwd(saved) => (Stored(u, User(false, 0), saved), Passed)
  }

  // ------------------------------------------------------------------ the slots

  class Account {
    const limit: int
    var locked: bool
    var fails: int

    ghost function Contents(): User
      reads this
    {
      User(locked, fails)
    }

    /** AddUser. */
    constructor (limit: int)
      ensures this.limit == limit && Contents() == User(false, 0)
    {
      this.limit, locked, fails := limit, false, 0;
    }

    method Save(u: User, saved: bool)
      modifies this
      ensures Contents() == Stored(old(Contents()), u, saved)
    {
      if saved {
        locked, fails := u.locked, u.fails;
      }
    }

    method Login(right: bool, expired: bool, saved: bool) returns (r: Answer)
      modifies this
      ensures (Contents(), r) == Apply(limit, old(Contents()), Step.Login(right, expired, saved))
    {
      var u := User(locked, fails);
      if u.locked {
        if !expired {
          return Denied;
        }
        u := u.(locked := false);
      }
      if !right {
        u := u.(fails := u.fails + 1);
        if u.fails >= limit {
          u := u.(locked := true);
        }
        Save(u, saved);
        return WrongPassword;
      }
      u := u.(fails := 0);
      Save(u, saved);
      return Passed;
    }

    method CheckLogin(saved: bool) returns (r: Answer)
      modifies this
      ensures (Contents(), r) == Apply(limit, old(Contents()), Step.CheckLogin(saved))
    {
      Save(User(locked, 0), saved);
      return Passed;
    }

    method ChangePwd(right: bool, strong: bool, saved: bool) returns (r: Answer)
      modifies this
      ensures (Contents(), r) == Apply(limit, old(Contents()), Step.ChangePwd(right, strong, saved))
    {
      var u := User(locked, fails);
      if u.locked {
        return Denied;
      }
      if !right {
        u := u.(fails := u.fails + 1);
        if u.fails >= limit {
          u := u.(locked := true);
        }
        Save(u, saved);
        return WrongPassword;
      }
      if !strong {
        return Denied;
      }
      Save(u, saved);
      return Passed;
    }

    method LockUser(saved: bool)
      modifies this
      ensures Contents() == Apply(limit, old(Contents()), Step.LockUser(saved)).0
    {
      Save(User(true, fails), saved);
    }

    method UnLockUser(saved: bool)
      modifies this
      ensures Contents() == Apply(limit, old(Contents()), Step.UnlockUser(saved)).0
    {
      Save(User(false, 0), saved);
    }

    method ResetPwd(saved: bool)
      modifies this
      ensures Contents() == Apply(limit, old(Contents()), Step.ResetPwd(saved)).0
    {
      Save(User(false, 0), saved);
    }
  }

  // ------------------------------------------------------------------ runs

  predicate Run(limit: int, us: seq<User>, acts: seq<Step>) {
    && |us| == |acts| + 1
    && us[0] == User(false, 0)
    && forall i :: 0 <= i < |acts| ==> Taken(limit, us, acts, i)
  }

  predicate Taken(limit: int, us: seq<User>, acts: seq<Step>, i: nat)
    requires i < |acts| && i + 1 < |us|
  {
    us[i + 1] == Apply(limit, us[i], acts[i]).0
  }

  /** In every reachable state a user at or over the limit is locked, whatever saves were lost. */
  lemma {:induction false} OverLimitIsLocked(limit: int, us: seq<User>, acts: seq<Step>, i: nat)
    requires limit >= 1 && Run(limit, us, acts) && i < |us|
    ensures us[i].fails >= limit ==> us[i].locked
    ensures us[i].fails >= 0
  {
    if i == 0 {
    } else {
      OverLimitIsLocked(limit, us, acts, i - 1);
      assert Taken(limit, us, acts, i - 1);
    }
  }

  /** The step stored a reset of the failure count. */
  predicate Resets(u: User, a: Step) {
    match a
    case Login(right, expired, saved) => right && saved && (u.locked ==> expired)
    case CheckLogin(saved) => saved
    case UnlockUser(saved) => saved
    case ResetPwd(saved) => saved
    case _ => false
  }

  /** The step compared a wrong password. */
  predicate EvaluatesWrong(u: User, a: Step) {
    match a
    case Login(right, expired, _) => !right && (u.locked ==> expired)
    case ChangePwd(right, _, _) => !right && !u.locked
    case _ => false
  }

  /** The step used up an expired lock. */
  predicate UsesExpiry(u: User, a: Step) {
    a.Login? && a.expired && u.locked
  }

  predicate LosesFailure(u: User, a: Step) {
    EvaluatesWrong(u, a) && !a.saved
  }

  /** How many steps of acts[lo..hi] have a property. */
  function Count(p: (User, Step) -> bool, us: seq<User>, acts: seq<Step>, lo: nat, hi: nat): nat
    requires lo <= hi <= |acts| <= |us|
    decreases hi - lo
  {
    if lo == hi then 0 else Count(p, us, acts, lo, hi - 1) + (if p(us[hi - 1], acts[hi - 1]) then 1 else 0)
  }

  /** Since a state with no failures, the stored count is the wrong passwords whose save was not lost. */
  lemma {:induction false} FailsCount(limit: int, us: seq<User>, acts: seq<Step>, lo: nat, hi: nat)
    requires limit >= 1 && Run(limit, us, acts) && lo <= hi <= |acts| && us[lo].fails == 0
    requires forall k :: lo <= k < hi ==> !Resets(us[k], acts[k])
    ensures Count(EvaluatesWrong, us, acts, lo, hi) == us[hi].fails + Count(LosesFailure, us, acts, lo, hi)
    ensures us[hi].fails <= limit + Count(UsesExpiry, us, acts, lo, hi)
    decreases hi - lo
  {
    if lo == hi {
    } else {
      FailsCount(limit, us, acts, lo, hi - 1);
      OverLimitIsLocked(limit, us, acts, hi - 1);
      assert !Resets(us[hi - 1], acts[hi - 1]) && Taken(limit, us, acts, hi - 1);
    }
  }

  /**
   * Between two resets the wrong passwords that get compared number at most the limit plus the lock
   * expiries that were used up (plus failures whose save was lost).
   */
  lemma GuessesBounded(limit: int, us: seq<User>, acts: seq<Step>, lo: nat, hi: nat)
    requires limit >= 1 && Run(limit, us, acts) && lo <= hi <= |acts| && us[lo].fails == 0
    requires forall k :: lo <= k < hi ==> !Resets(us[k], acts[k])
    ensures Count(EvaluatesWrong, us, acts, lo, hi)
         <= limit + Count(UsesExpiry, us, acts, lo, hi) + Count(LosesFailure, us, acts, lo, hi)
  {
    FailsCount(limit, us, acts, lo, hi);
  }

  // ------------------------------------------------------------------ answers

  /** Who is let in, and what a login leaves. */
  lemma LoginSays(limit: int, u: User, right: bool, expired: bool, saved: bool)
    ensures var (u', r) := Apply(limit, u, Login(right, expired, saved));
            && (r == Denied <==> u.locked && !expired)
            && (r == Passed <==> right && (u.locked ==> expired))
            && (r == Denied || !saved ==> u' == u)
            && (r == Passed && saved ==> !u'.locked && u'.fails == 0)
            && (r == WrongPassword && saved ==> u'.fails == u.fails + 1 && (u'.locked <==> u'.fails >= limit))
  {
  }

  /** Who may change a password, and that only a wrong one is counted. */
  lemma ChangePwdSays(limit: int, u: User, right: bool, strong: bool, saved: bool)
    ensures var (u', r) := Apply(limit, u, ChangePwd(right, strong, saved));
            && (r == Passed <==> !u.locked && right && strong)
            && (r == WrongPassword <==> !u.locked && !right)
            && (r == WrongPassword && saved ==> u'.fails == u.fails + 1 && (u'.locked <==> u'.fails >= limit))
            && (r != WrongPassword || !saved ==> u' == u)
  {
  }

  /** Step k does not lift a lock. */
  predicate LeavesLock(a: Step) {
    match a
    case Login(_, expired, _) => !expired
    case UnlockUser(saved) => !saved
    case ResetPwd(saved) => !saved
    case _ => true
  }

  /** A stored lock keeps everybody out until it expires or an administrator lifts it. */
  lemma {:induction false} LockHolds(limit: int, us: seq<User>, acts: seq<Step>, i: nat, j: nat,
                                     right: bool, saved: bool)
    requires Run(limit, us, acts) && i < j < |us| && acts[i] == LockUser(true)
    requires forall k :: i < k < j ==> LeavesLock(acts[k])
    ensures us[j].locked
    ensures Apply(limit, us[j], Login(right, false, saved)) == (us[j], Denied)
    decreases j
  {
    assert Taken(limit, us, acts, j - 1);
    if j == i + 1 {
    } else {
      LockHolds(limit, us, acts, i, j - 1, right, saved);
    }
  }

  /** After a saved unlocking or reset the right password passes and no failure is counted. */
  lemma LiftedLock(limit: int, u: User, a: Step, saved: bool)
    requires a == UnlockUser(true) || a == ResetPwd(true)
    ensures var u' := Apply(limit, u, a).0;
            u'.fails == 0 && Apply(limit, u', Login(true, false, saved)) == (u', Passed)
  {
  }

  /** CheckLogin clears the count of failures and nothing else; locking leaves the count. */
  lemma CountAlone(limit: int, u: User)
    ensures Apply(limit, u, CheckLogin(true)).0 == User(u.locked, 0)
    ensures Apply(limit, u, LockUser(true)).0 == User(true, u.fails)
    ensures forall a :: a == CheckLogin(false) || a == LockUser(false) || a == UnlockUser(false) || a == ResetPwd(false)
                        ==> Apply(limit, u, a).0 == u
  {
  }
}
