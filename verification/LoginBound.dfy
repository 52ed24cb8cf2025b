/** The bound on wrong replies in five minutes is exact: for any number of sessions that may be open at a time
    there is a run that reaches it. */
module LoginBound {
  import opened HashChain
  import opened AccountStore
  import opened SKeyServer
  import opened SKeyWorld
  import opened SKeyRuns
  import opened LoginPolicy

  /** What stays the same throughout the run. */
  datatype Setting = Setting(md5: Md5, policy: Policy, id: string, r: string, wrong: string, most: nat, start: int)

  // ----- the state: one account, and the open sessions with their flags -----

  ghost predicate Sits(c: Setting, w: World, a: Account, open: map<nat, bool>) {
    && c.id in w.store.accounts && w.store.accounts[c.id] == a && !Accepts(c.md5, a.verifier, c.wrong)
    && w.sessions.Keys == open.Keys
    && forall sid :: sid in open ==>
         w.sessions[sid].id == c.id && w.sessions[sid].verifier == a.verifier && w.sessions[sid].firstError == open[sid]
  }

  lemma OpenKeys(c: Setting, w: World, a: Account, open: map<nat, bool>)
    requires Sits(c, w, a, open)
    ensures OpenOf(w, c.id) == open.Keys
  {
  }

  predicate OpenAt(c: Setting, a: Account, now: int) {
    a.blockTime + BLOCK_SECONDS <= now && a.loginDate + c.policy.noLoginPeriod >= Day(now)
  }

  lemma Opened(c: Setting, w: World, a: Account, open: map<nat, bool>, sid: nat, now: int)
    requires Sits(c, w, a, open) && OpenAt(c, a, now)
    ensures var e := Open(sid, c.id, c.r, now);
      && Sits(c, Next(c.md5, c.policy, w, e), a, open[sid := a.errorTime + BLOCK_SECONDS < now])
      && !Wrong(c.md5, w, e, c.id)
  {
  }

  lemma Answered(c: Setting, w: World, a: Account, open: map<nat, bool>, sid: nat, now: int)
    requires Sits(c, w, a, open) && sid in open
    ensures var e := Reply(sid, c.wrong, "", now);
      && Sits(c, Next(c.md5, c.policy, w, e), Trigger(CountError(a, open[sid], now), now), open - {sid})
      && Wrong(c.md5, w, e, c.id)
  {
  }

  // ----- runs within the window and within the number of sessions -----

  /** A run inside the window, with no more sessions open than allowed at any time, and so many wrong replies. */
  ghost predicate Phase(c: Setting, w: World, es: seq<Event>, count: nat) {
    && AllInWindow(es, c.start) && AtMostOpen(c.md5, c.policy, w, es, c.id, c.most)
    && WrongReplies(c.md5, c.policy, w, es, c.id) == count
  }

  lemma {:induction false} AtMostThen(c: Setting, w: World, es: seq<Event>, more: seq<Event>)
    requires AtMostOpen(c.md5, c.policy, w, es, c.id, c.most)
    requires AtMostOpen(c.md5, c.policy, Run(c.md5, c.policy, w, es), more, c.id, c.most)
    ensures AtMostOpen(c.md5, c.policy, w, es + more, c.id, c.most)
    decreases |es|
  {
    if es == [] {
      assert es + more == more;
    } else {
      assert (es + more)[0] == es[0] && (es + more)[1..] == es[1..] + more;
      AtMostThen(c, Next(c.md5, c.policy, w, es[0]), es[1..], more);
    }
  }

  lemma PhaseThen(c: Setting, w: World, es: seq<Event>, count: nat, more: seq<Event>, further: nat)
    requires Phase(c, w, es, count) && Phase(c, Run(c.md5, c.policy, w, es), more, further)
    ensures Phase(c, w, es + more, count + further)
    ensures Run(c.md5, c.policy, w, es + more) == Run(c.md5, c.policy, Run(c.md5, c.policy, w, es), more)
  {
    AtMostThen(c, w, es, more);
    WrongThen(c.md5, c.policy, w, es, more, c.id);
    RunThen(c.md5, c.policy, w, es, more);
  }

  lemma NoStep(c: Setting, w: World, a: Account, open: map<nat, bool>)
    requires Sits(c, w, a, open) && |open.Keys| <= c.most
    ensures Phase(c, w, [], 0) && Run(c.md5, c.policy, w, []) == w
  {
    OpenKeys(c, w, a, open);
  }

  lemma OneStep(c: Setting, w: World, e: Event)
    requires InWindow(e, c.start) && |OpenOf(w, c.id)| <= c.most
    requires |OpenOf(Next(c.md5, c.policy, w, e), c.id)| <= c.most
    ensures Phase(c, w, [e], if Wrong(c.md5, w, e, c.id) then 1 else 0)
    ensures Run(c.md5, c.policy, w, [e]) == Next(c.md5, c.policy, w, e)
  {
    var w' := Next(c.md5, c.policy, w, e);
    assert [e][0] == e && [e][1..] == [];
    assert AtMostOpen(c.md5, c.policy, w', [], c.id, c.most) && WrongReplies(c.md5, c.policy, w', [], c.id) == 0;
    assert Run(c.md5, c.policy, w', []) == w';
  }

  lemma OpenPhase(c: Setting, w: World, a: Account, open: map<nat, bool>, sid: nat, now: int)
    requires Sits(c, w, a, open) && OpenAt(c, a, now) && c.start <= now < c.start + BLOCK_SECONDS
    requires |open.Keys| <= c.most && |open.Keys + {sid}| <= c.most
    ensures var es := [Open(sid, c.id, c.r, now)];
      && Phase(c, w, es, 0)
      && Sits(c, Run(c.md5, c.policy, w, es), a, open[sid := a.errorTime + BLOCK_SECONDS < now])
  {
    var e := Open(sid, c.id, c.r, now);
    var flag := a.errorTime + BLOCK_SECONDS < now;
    Opened(c, w, a, open, sid, now);
    OpenKeys(c, w, a, open);
    OpenKeys(c, Next(c.md5, c.policy, w, e), a, open[sid := flag]);
    assert open[sid := flag].Keys == open.Keys + {sid};
    OneStep(c, w, e);
  }

  lemma AnswerPhase(c: Setting, w: World, a: Account, open: map<nat, bool>, sid: nat, now: int)
    requires Sits(c, w, a, open) && sid in open && c.start <= now < c.start + BLOCK_SECONDS && |open.Keys| <= c.most
    ensures var es := [Reply(sid, c.wrong, "", now)];
      && Phase(c, w, es, 1)
      && Sits(c, Run(c.md5, c.policy, w, es), Trigger(CountError(a, open[sid], now), now), open - {sid})
  {
    var e := Reply(sid, c.wrong, "", now);
    Answered(c, w, a, open, sid, now);
    OpenKeys(c, w, a, open);
    OpenKeys(c, Next(c.md5, c.policy, w, e), Trigger(CountError(a, open[sid], now), now), open - {sid});
    FewerElements((open - {sid}).Keys, open.Keys);
    OneStep(c, w, e);
  }

  // ----- the sessions from lo up to below hi, all with one flag -----

  function Sids(lo: nat, hi: nat): (sids: set<nat>)
    ensures forall sid: nat :: sid in sids <==> lo <= sid < hi
    ensures |sids| == if lo <= hi then hi - lo else 0
    decreases hi - lo
  {
    if lo >= hi then {} else {lo} + Sids(lo + 1, hi)
  }

  function Range(lo: nat, hi: nat, flag: bool): (open: map<nat, bool>)
    ensures open.Keys == Sids(lo, hi)
  {
    map sid | sid in Sids(lo, hi) :: flag
  }

  lemma RangeGrows(k: nat, flag: bool)
    ensures Range(0, k, flag)[k := flag] == Range(0, k + 1, flag)
    ensures Range(0, k, flag).Keys + {k} == Range(0, k + 1, flag).Keys
  {
  }

  lemma RangeShrinks(k: nat, n: nat, flag: bool)
    requires k < n
    ensures k in Range(k, n, flag) && Range(k, n, flag)[k] == flag && Range(k, n, flag) - {k} == Range(k + 1, n, flag)
  {
  }

  lemma OpenFirst(c: Setting, w: World, a: Account, k: nat, now: int) returns (es: seq<Event>)
    requires k < c.most && c.start <= now < c.start + BLOCK_SECONDS && OpenAt(c, a, now)
    requires Sits(c, w, a, Range(0, k, a.errorTime + BLOCK_SECONDS < now))
    ensures Phase(c, w, es, 0)
    ensures Sits(c, Run(c.md5, c.policy, w, es), a, Range(0, k + 1, a.errorTime + BLOCK_SECONDS < now))
  {
    var flag := a.errorTime + BLOCK_SECONDS < now;
    RangeGrows(k, flag);
    OpenPhase(c, w, a, Range(0, k, flag), k, now);
    es := [Open(k, c.id, c.r, now)];
  }

  /** Sessions k up to below n opened at one time. */
  lemma {:induction false} OpenRange(c: Setting, w: World, a: Account, k: nat, n: nat, now: int)
    returns (es: seq<Event>)
    requires k <= n <= c.most && c.start <= now < c.start + BLOCK_SECONDS && OpenAt(c, a, now)
    requires Sits(c, w, a, Range(0, k, a.errorTime + BLOCK_SECONDS < now))
    ensures Phase(c, w, es, 0)
    ensures Sits(c, Run(c.md5, c.policy, w, es), a, Range(0, n, a.errorTime + BLOCK_SECONDS < now))
    decreases n - k
  {
    if k == n {
      NoStep(c, w, a, Range(0, k, a.errorTime + BLOCK_SECONDS < now));
      es := [];
    } else {
      var first := OpenFirst(c, w, a, k, now);
      var rest := OpenRange(c, Run(c.md5, c.policy, w, first), a, k + 1, n, now);
      PhaseThen(c, w, first, 0, rest, 0);
      es := first + rest;
    }
  }

  lemma AnswerFirst(c: Setting, w: World, a: Account, k: nat, n: nat, flag: bool, now: int) returns (es: seq<Event>)
    requires k < n <= c.most && c.start <= now < c.start + BLOCK_SECONDS && Sits(c, w, a, Range(k, n, flag))
    ensures Phase(c, w, es, 1)
    ensures Sits(c, Run(c.md5, c.policy, w, es), Trigger(CountError(a, flag, now), now), Range(k + 1, n, flag))
  {
    RangeShrinks(k, n, flag);
    AnswerPhase(c, w, a, Range(k, n, flag), k, now);
    es := [Reply(k, c.wrong, "", now)];
  }

  /** All of them answered, whatever that does to the account. */
  lemma {:induction false} AnswerRange(c: Setting, w: World, a: Account, k: nat, n: nat, flag: bool, now: int)
    returns (es: seq<Event>)
    requires k <= n <= c.most && c.start <= now < c.start + BLOCK_SECONDS && Sits(c, w, a, Range(k, n, flag))
    ensures Phase(c, w, es, n - k)
    decreases n - k
  {
    if k == n {
      NoStep(c, w, a, Range(k, n, flag));
      es := [];
    } else {
      var first := AnswerFirst(c, w, a, k, n, flag, now);
      var a1 := Trigger(CountError(a, flag, now), now);
      var rest := AnswerRange(c, Run(c.md5, c.policy, w, first), a1, k + 1, n, flag, now);
      PhaseThen(c, w, first, 1, rest, n - k - 1);
      es := first + rest;
    }
  }

  // ----- the run -----

  /** One session opened and answered. */
  lemma OneByOne(c: Setting, w: World, a: Account, open: map<nat, bool>, sid: nat, now: int) returns (es: seq<Event>)
    requires Sits(c, w, a, open) && OpenAt(c, a, now) && c.start <= now < c.start + BLOCK_SECONDS
    requires sid !in open && |open.Keys| < c.most
    ensures Phase(c, w, es, 1)
    ensures Sits(c, Run(c.md5, c.policy, w, es),
                 Trigger(CountError(a, a.errorTime + BLOCK_SECONDS < now, now), now), open)
  {
    var flag := a.errorTime + BLOCK_SECONDS < now;
    var opening, reply := [Open(sid, c.id, c.r, now)], [Reply(sid, c.wrong, "", now)];
    assert open[sid := flag].Keys == open.Keys + {sid} && open[sid := flag] - {sid} == open;
    OpenPhase(c, w, a, open, sid, now);
    AnswerPhase(c, Run(c.md5, c.policy, w, opening), a, open[sid := flag], sid, now);
    PhaseThen(c, w, opening, 0, reply, 1);
    es := opening + reply;
  }

  /** A session that restarts the count, then a new one that raises it again. */
  lemma RestartPhase(c: Setting, w: World, a: Account, k: nat, n: nat, now: int) returns (es: seq<Event>)
    requires k < n <= c.most && c.start <= now < c.start + BLOCK_SECONDS && OpenAt(c, a, now)
    requires a.errorTimes == 2 && Sits(c, w, a, Range(k, n, true))
    ensures Phase(c, w, es, 2) && Sits(c, Run(c.md5, c.policy, w, es), a.(errorTime := now), Range(k + 1, n, true))
  {
    var first := AnswerFirst(c, w, a, k, n, true, now);
    var a1 := a.(errorTime := now, errorTimes := 1);
    var second := OneByOne(c, Run(c.md5, c.policy, w, first), a1, Range(k + 1, n, true), n, now);
    PhaseThen(c, w, first, 1, second, 1);
    es := first + second;
  }

  /** The same over and over, until no session is left that restarts the count. */
  lemma {:induction false} RestartsPhase(c: Setting, w: World, a: Account, k: nat, n: nat, now: int)
    returns (es: seq<Event>)
    requires k <= n <= c.most && c.start <= now < c.start + BLOCK_SECONDS && OpenAt(c, a, now)
    requires a.errorTimes == 2 && Sits(c, w, a, Range(k, n, true)) && (k == n ==> a.errorTime == now)
    ensures Phase(c, w, es, 2 * (n - k)) && Sits(c, Run(c.md5, c.policy, w, es), a.(errorTime := now), map[])
    decreases n - k
  {
    if k == n {
      assert Range(k, n, true) == map[];
      NoStep(c, w, a, map[]);
      es := [];
    } else {
      var first := RestartPhase(c, w, a, k, n, now);
      var rest := RestartsPhase(c, Run(c.md5, c.policy, w, first), a.(errorTime := now), k + 1, n, now);
      PhaseThen(c, w, first, 2, rest, 2 * (n - k - 1));
      es := first + rest;
    }
  }

  /** With nothing open: all sessions opened and answered. On a count of two the first reply blocks, and the
      others are still looked at. */
  lemma LastPhase(c: Setting, w: World, a: Account, now: int) returns (es: seq<Event>)
    requires c.start <= now < c.start + BLOCK_SECONDS && OpenAt(c, a, now) && Sits(c, w, a, map[])
    ensures Phase(c, w, es, c.most)
  {
    var flag := a.errorTime + BLOCK_SECONDS < now;
    assert Range(0, 0, flag) == map[];
    var opens := OpenRange(c, w, a, 0, c.most, now);
    var replies := AnswerRange(c, Run(c.md5, c.policy, w, opens), a, 0, c.most, flag, now);
    PhaseThen(c, w, opens, 0, replies, c.most);
    es := opens + replies;
  }

  /** Two errors while the old one still counts. */
  lemma ToTwo(c: Setting, w: World, a: Account) returns (es: seq<Event>)
    requires c.most >= 1 && a.errorTimes == 0 && a.errorTime + BLOCK_SECONDS == c.start
    requires OpenAt(c, a, c.start) && Sits(c, w, a, map[])
    ensures Phase(c, w, es, 2) && Sits(c, Run(c.md5, c.policy, w, es), a.(errorTimes := 2), map[])
  {
    var one := OneByOne(c, w, a, map[], 0, c.start);
    var two := OneByOne(c, Run(c.md5, c.policy, w, one), a.(errorTimes := 1), map[], 0, c.start);
    PhaseThen(c, w, one, 1, two, 1);
    es := one + two;
  }

  /** A second later all sessions are opened that restart the count. */
  lemma FromTwo(c: Setting, w: World, a: Account) returns (es: seq<Event>)
    requires c.most >= 1 && a.errorTimes == 2 && a.errorTime + BLOCK_SECONDS == c.start
    requires OpenAt(c, a, c.start + 1) && Sits(c, w, a, map[])
    ensures Phase(c, w, es, 3 * c.most)
  {
    var t := c.start + 1;
    assert Range(0, 0, true) == map[];
    var opens := OpenRange(c, w, a, 0, c.most, t);
    var w1 := Run(c.md5, c.policy, w, opens);
    var restarts := RestartsPhase(c, w1, a, 0, c.most, t);
    var last := LastPhase(c, Run(c.md5, c.policy, w1, restarts), a.(errorTime := t), t);
    PhaseThen(c, w1, restarts, 2 * c.most, last, c.most);
    PhaseThen(c, w, opens, 0, restarts + last, 3 * c.most);
    es := opens + (restarts + last);
  }

  /** From a count of zero that expires as the window opens, and with no session open, some run that never has
      more than the given number of sessions open reaches the bound. */
  lemma BoundIsReached(c: Setting, w: World)
    requires c.most >= 1 && w.sessions == map[] && c.id in w.store.accounts
    requires var a := w.store.accounts[c.id];
      && a.errorTimes == 0 && a.errorTime + BLOCK_SECONDS == c.start && !Accepts(c.md5, a.verifier, c.wrong)
      && OpenAt(c, a, c.start) && OpenAt(c, a, c.start + 1)
    ensures var bound := 3 * c.most + 2;
      exists es :: Phase(c, w, es, bound)
  {
    var a := w.store.accounts[c.id];
    var first := ToTwo(c, w, a);
    var rest := FromTwo(c, Run(c.md5, c.policy, w, first), a.(errorTimes := 2));
    PhaseThen(c, w, first, 2, rest, 3 * c.most);
    assert Phase(c, w, first + rest, 2 + 3 * c.most);
  }
}
