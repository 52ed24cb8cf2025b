/** Blocking after wrong replies, freezing after absence, and the forced password change, over runs in which
    the sessions of a user overlap in any way. */
module LoginPolicy {
  import opened HashChain
  import opened AccountStore
  import opened Optional
  import opened SKeyServer
  import opened PasswordHistory
  import opened SKeyWorld
  import opened SKeyRuns

  // ----- counting wrong replies in five minutes -----

  /** A reply that was looked at and found wrong. */
  ghost predicate Wrong(md5: Md5, w: World, e: Event, id: string) {
    && e.Reply? && e.sid in w.sessions && w.sessions[e.sid].id == id
    && !Accepts(md5, w.sessions[e.sid].verifier, e.iterate)
  }

  ghost function WrongReplies(md5: Md5, policy: Policy, w: World, es: seq<Event>, id: string): nat
    decreases |es|
  {
    if es == [] then 0 else
      (if Wrong(md5, w, es[0], id) then 1 else 0) + WrongReplies(md5, policy, Next(md5, policy, w, es[0]), es[1..], id)
  }

  predicate InWindow(e: Event, start: int) {
    e.OpenChange? || start <= e.now < start + BLOCK_SECONDS
  }

  predicate AllInWindow(es: seq<Event>, start: int) {
    forall i :: 0 <= i < |es| ==> InWindow(es[i], start)
  }

  predicate Counting(st: Store, id: string) {
    id in st.accounts && 0 <= st.accounts[id].errorTimes <= 2
  }

  /** In every run from the empty database each account's error count is at most two between steps. */
  lemma {:induction false} CountsStayInRange(md5: Md5, policy: Policy, w: World, es: seq<Event>)
    requires forall id :: id in w.store.accounts ==> Counting(w.store, id)
    ensures forall id :: id in Run(md5, policy, w, es).store.accounts ==> Counting(Run(md5, policy, w, es).store, id)
    decreases |es|
  {
    if es != [] {
      var w' := Next(md5, policy, w, es[0]);
      forall id | id in w'.store.accounts ensures Counting(w'.store, id) {
        if id in w.store.accounts {
          ErrorFieldsAfter(md5, policy, w, es[0], id);
        }
      }
      CountsStayInRange(md5, policy, w', es[1..]);
    }
  }

  /** What a step does to the fields the blocking reads, in any state: only a wrong reply touches them. */
  lemma ErrorFieldsAfter(md5: Md5, policy: Policy, w: World, e: Event, id: string)
    requires Counting(w.store, id)
    ensures var a, a' := w.store.accounts[id], RowAfter(md5, policy, w, e, id);
      && Counting(Next(md5, policy, w, e).store, id)
      && (if Wrong(md5, w, e, id) then a' == Trigger(CountError(a, w.sessions[e.sid].firstError, e.now), e.now)
          else a'.blockTime == a.blockTime && a'.errorTime == a.errorTime && a'.errorTimes == a.errorTimes)
  {
  }

  ghost function RowAfter(md5: Md5, policy: Policy, w: World, e: Event, id: string): Account
    requires id in w.store.accounts
  {
    AccountsStay(md5, policy, w, e, id);
    Next(md5, policy, w, e).store.accounts[id]
  }

  // ----- the guard under which overlapping sessions do not matter -----

  /** Wrong replies still possible in the window that opens at start. */
  function Left(a: Account, start: int): int {
    if a.blockTime >= start then 0
    else if a.errorTime >= start then 3 - a.errorTimes
    else 5 - a.errorTimes
  }

  /** The account is not blocked now, and the count is not restarted over an error that still counts: what a
      server would test that looked at the present row again before counting. */
  predicate Timely(a: Account, firstError: bool, now: int) {
    a.blockTime + BLOCK_SECONDS <= now && (firstError ==> a.errorTime + BLOCK_SECONDS <= now || a.errorTimes == 0)
  }

  predicate UsesOne(a: Account, firstError: bool, now: int, start: int) {
    Left(Trigger(CountError(a, firstError, now), now), start) <= Left(a, start) - 1
  }

  /** A counted error uses up one of those left, whatever window it is seen in, exactly when it is timely. */
  lemma UsesOneIff(a: Account, firstError: bool, now: int)
    requires 0 <= a.errorTimes <= 2
    ensures (forall start :: start <= now < start + BLOCK_SECONDS ==> UsesOne(a, firstError, now, start))
      <==> Timely(a, firstError, now)
  {
    if a.blockTime + BLOCK_SECONDS > now {
      assert !UsesOne(a, firstError, now, if a.blockTime > now then now else a.blockTime);
    } else if !Timely(a, firstError, now) {
      assert !UsesOne(a, firstError, now, if a.errorTime > now then now else a.errorTime);
    }
  }

  ghost predicate TimelyRun(md5: Md5, policy: Policy, w: World, es: seq<Event>, id: string)
    decreases |es|
  {
    es == [] || (
      && (Wrong(md5, w, es[0], id) && id in w.store.accounts ==>
           Timely(w.store.accounts[id], w.sessions[es[0].sid].firstError, es[0].now))
      && TimelyRun(md5, policy, Next(md5, policy, w, es[0]), es[1..], id))
  }

  /** If every error is counted in time, at most five wrong replies are looked at in any five minutes, however
      many sessions are open. */
  lemma {:induction false} TimelyIsFive(md5: Md5, policy: Policy, w: World, es: seq<Event>, id: string, start: int)
    requires Counting(w.store, id) && AllInWindow(es, start) && TimelyRun(md5, policy, w, es, id)
    ensures WrongReplies(md5, policy, w, es, id) <= Left(w.store.accounts[id], start) <= 5
    decreases |es|
  {
    if es != [] {
      assert InWindow(es[0], start);
      var w' := Next(md5, policy, w, es[0]);
      ErrorFieldsAfter(md5, policy, w, es[0], id);
      assert AllInWindow(es[1..], start);
      TimelyIsFive(md5, policy, w', es[1..], id, start);
      if Wrong(md5, w, es[0], id) {
        UsesOneIff(w.store.accounts[id], w.sessions[es[0].sid].firstError, es[0].now);
        assert UsesOne(w.store.accounts[id], w.sessions[es[0].sid].firstError, es[0].now, start);
      }
    }
  }

  // ----- the bound without the guard -----

  ghost function OpenOf(w: World, id: string): set<nat> {
    set sid | sid in w.sessions && w.sessions[sid].id == id
  }

  /** The open sessions that will restart the count. */
  ghost function FirstErrorOf(w: World, id: string): set<nat> {
    set sid | sid in w.sessions && w.sessions[sid].id == id && w.sessions[sid].firstError
  }

  ghost predicate AtMostOpen(md5: Md5, policy: Policy, w: World, es: seq<Event>, id: string, most: int)
    decreases |es|
  {
    |OpenOf(w, id)| <= most && (es == [] || AtMostOpen(md5, policy, Next(md5, policy, w, es[0]), es[1..], id, most))
  }

  /** What can still go wrong in the window: nothing new is opened while the account is blocked, and nothing
      that restarts the count after an error inside the window. */
  ghost function Budget(w: World, id: string, start: int, most: int): int
    requires id in w.store.accounts
  {
    var a := w.store.accounts[id];
    if a.blockTime >= start then |OpenOf(w, id)|
    else if a.errorTime >= start then 2 * |FirstErrorOf(w, id)| + 3 - a.errorTimes + most - 1
    else 3 * most + 2 - a.errorTimes
  }

  lemma FewerElements(small: set<nat>, large: set<nat>)
    requires small <= large
    ensures |small| <= |large|
  {
    assert large == small + (large - small);
  }

  lemma FirstErrorsAreOpen(w: World, id: string)
    ensures FirstErrorOf(w, id) <= OpenOf(w, id) && |FirstErrorOf(w, id)| <= |OpenOf(w, id)|
  {
    FewerElements(FirstErrorOf(w, id), OpenOf(w, id));
  }

  /** A wrong reply closes its session. */
  lemma WrongCloses(md5: Md5, policy: Policy, w: World, e: Event, id: string)
    requires Wrong(md5, w, e, id)
    ensures var w' := Next(md5, policy, w, e);
      && |OpenOf(w', id)| == |OpenOf(w, id)| - 1
      && |FirstErrorOf(w', id)| == |FirstErrorOf(w, id)| - (if w.sessions[e.sid].firstError then 1 else 0)
  {
    var w' := Next(md5, policy, w, e);
    assert OpenOf(w', id) == OpenOf(w, id) - {e.sid};
    assert FirstErrorOf(w', id) == FirstErrorOf(w, id) - {e.sid};
  }

  lemma NothingOpens(md5: Md5, policy: Policy, w: World, e: Event, id: string, start: int)
    requires id in w.store.accounts && InWindow(e, start) && !Wrong(md5, w, e, id)
    ensures var w' := Next(md5, policy, w, e);
      && (w.store.accounts[id].blockTime >= start ==> OpenOf(w', id) <= OpenOf(w, id))
      && (w.store.accounts[id].errorTime >= start ==> FirstErrorOf(w', id) <= FirstErrorOf(w, id))
  {
  }

  lemma StepUsesBudget(md5: Md5, policy: Policy, w: World, e: Event, id: string, start: int, most: int)
    requires Counting(w.store, id) && InWindow(e, start) && |OpenOf(w, id)| <= most
    ensures var w' := Next(md5, policy, w, e);
      && Counting(w'.store, id)
      && Budget(w', id, start, most) + (if Wrong(md5, w, e, id) then 1 else 0) <= Budget(w, id, start, most)
  {
    var w' := Next(md5, policy, w, e);
    ErrorFieldsAfter(md5, policy, w, e, id);
    FirstErrorsAreOpen(w, id);
    if Wrong(md5, w, e, id) {
      WrongCloses(md5, policy, w, e, id);
    } else {
      NothingOpens(md5, policy, w, e, id, start);
      if w.store.accounts[id].blockTime >= start {
        FewerElements(OpenOf(w', id), OpenOf(w, id));
      } else if w.store.accounts[id].errorTime >= start {
        FewerElements(FirstErrorOf(w', id), FirstErrorOf(w, id));
      }
    }
  }

  lemma {:induction false} RunUsesBudget(md5: Md5, policy: Policy, w: World, es: seq<Event>, id: string, start: int,
                                         most: int)
    requires Counting(w.store, id) && AllInWindow(es, start) && AtMostOpen(md5, policy, w, es, id, most)
    ensures WrongReplies(md5, policy, w, es, id) <= Budget(w, id, start, most)
    decreases |es|
  {
    if es != [] {
      assert InWindow(es[0], start);
      StepUsesBudget(md5, policy, w, es[0], id, start, most);
      assert AllInWindow(es[1..], start);
      RunUsesBudget(md5, policy, Next(md5, policy, w, es[0]), es[1..], id, start, most);
    }
  }

  /** In any five minutes, in every run whatever: if at most so many sessions of the user are open at a time,
      at most three times as many wrong replies and two are looked at. One session at a time means five. */
  lemma WrongRepliesBounded(md5: Md5, policy: Policy, w: World, es: seq<Event>, id: string, start: int, most: int)
    requires Counting(w.store, id) && AllInWindow(es, start) && AtMostOpen(md5, policy, w, es, id, most)
    ensures WrongReplies(md5, policy, w, es, id) <= 3 * most + 2
    ensures most == 1 ==> WrongReplies(md5, policy, w, es, id) <= 5
  {
    RunUsesBudget(md5, policy, w, es, id, start, most);
    FirstErrorsAreOpen(w, id);
  }

  ghost predicate Fresh(w: World, id: string, start: int) {
    && Counting(w.store, id) && w.store.accounts[id].errorTime + BLOCK_SECONDS < start
    && OpenOf(w, id) == FirstErrorOf(w, id)
  }

  /** From an expired counter three times as many; one session at a time means three. */
  lemma {:induction false} FreshCounter(md5: Md5, policy: Policy, w: World, es: seq<Event>, id: string, start: int,
                                        most: int)
    requires Fresh(w, id, start) && AllInWindow(es, start) && AtMostOpen(md5, policy, w, es, id, most)
    ensures WrongReplies(md5, policy, w, es, id) <= 3 * most
    decreases |es|
  {
    if es != [] {
      assert InWindow(es[0], start);
      var w' := Next(md5, policy, w, es[0]);
      ErrorFieldsAfter(md5, policy, w, es[0], id);
      assert AllInWindow(es[1..], start);
      if Wrong(md5, w, es[0], id) {
        assert es[0].sid in OpenOf(w, id);
        WrongCloses(md5, policy, w, es[0], id);
        RunUsesBudget(md5, policy, w', es[1..], id, start, most);
      } else {
        StaysFresh(md5, policy, w, es[0], id, start);
        FreshCounter(md5, policy, w', es[1..], id, start, most);
      }
    }
  }

  lemma StaysFresh(md5: Md5, policy: Policy, w: World, e: Event, id: string, start: int)
    requires Fresh(w, id, start) && InWindow(e, start) && !Wrong(md5, w, e, id)
    ensures Fresh(Next(md5, policy, w, e), id, start)
  {
    var w' := Next(md5, policy, w, e);
    ErrorFieldsAfter(md5, policy, w, e, id);
    forall sid | sid in OpenOf(w', id) ensures sid in FirstErrorOf(w', id) {
      if sid in w.sessions && w'.sessions[sid] == w.sessions[sid] {
        assert sid in OpenOf(w, id);
      }
    }
    assert OpenOf(w', id) == FirstErrorOf(w', id);
  }

  // ----- without the guard and without a limit on open sessions there is no bound -----

  function Opens(id: string, r: string, now: int, k: nat, n: nat): seq<Event>
    decreases n - k
  {
    if k >= n then [] else [Open(k, id, r, now)] + Opens(id, r, now, k + 1, n)
  }

  function Replies(wrong: string, now: int, k: nat, n: nat): seq<Event>
    decreases n - k
  {
    if k >= n then [] else [Reply(k, wrong, "", now)] + Replies(wrong, now, k + 1, n)
  }

  lemma {:induction false} WrongThen(md5: Md5, policy: Policy, w: World, es: seq<Event>, more: seq<Event>, id: string)
    ensures WrongReplies(md5, policy, w, es + more, id)
      == WrongReplies(md5, policy, w, es, id) + WrongReplies(md5, policy, Run(md5, policy, w, es), more, id)
    decreases |es|
  {
    if es == [] {
      assert es + more == more;
    } else {
      assert (es + more)[0] == es[0] && (es + more)[1..] == es[1..] + more;
      WrongThen(md5, policy, Next(md5, policy, w, es[0]), es[1..], more, id);
    }
  }

  /** Sessions from up to below to are waiting with this offer. */
  ghost predicate Waiting(w: World, p: Pending, from: nat, to: nat) {
    forall sid: nat :: from <= sid < to ==> sid in w.sessions && w.sessions[sid] == p
  }

  lemma {:induction false} AllOpen(md5: Md5, policy: Policy, w: World, id: string, r: string, now: int, k: nat, n: nat)
    requires k <= n && OfferLogin(w.store, policy, id, r, now).Offered?
    requires Waiting(w, OfferLogin(w.store, policy, id, r, now).pending, 0, k)
    ensures var es := Opens(id, r, now, k, n);
      var w' := Run(md5, policy, w, es);
      && w'.store == w.store && WrongReplies(md5, policy, w, es, id) == 0
      && Waiting(w', OfferLogin(w.store, policy, id, r, now).pending, 0, n)
    decreases n - k
  {
    if k < n {
      var es := Opens(id, r, now, k, n);
      assert es[1..] == Opens(id, r, now, k + 1, n);
      AllOpen(md5, policy, Next(md5, policy, w, es[0]), id, r, now, k + 1, n);
    }
  }

  lemma FirstOf(md5: Md5, policy: Policy, w: World, e: Event, rest: seq<Event>, id: string)
    ensures Run(md5, policy, w, [e] + rest) == Run(md5, policy, Next(md5, policy, w, e), rest)
    ensures WrongReplies(md5, policy, w, [e] + rest, id)
      == (if Wrong(md5, w, e, id) then 1 else 0) + WrongReplies(md5, policy, Next(md5, policy, w, e), rest, id)
  {
    assert ([e] + rest)[0] == e && ([e] + rest)[1..] == rest;
  }

  /** Nothing an offer of this user's login is refused for has changed. */
  predicate StillOpen(w: World, w': World, id: string) {
    && Counting(w.store, id) && Counting(w'.store, id)
    && w'.store.accounts[id].blockTime == w.store.accounts[id].blockTime
    && w'.store.accounts[id].loginDate == w.store.accounts[id].loginDate
  }

  lemma OneAnswer(md5: Md5, policy: Policy, w: World, id: string, p: Pending, wrong: string, now: int, k: nat, n: nat)
    requires k < n && Counting(w.store, id) && Waiting(w, p, k, n)
    requires p.id == id && p.firstError && !Accepts(md5, p.verifier, wrong)
    ensures var e := Reply(k, wrong, "", now);
      var w' := Next(md5, policy, w, e);
      && Wrong(md5, w, e, id) && Waiting(w', p, k + 1, n)
      && StillOpen(w, w', id) && w'.store.accounts[id].errorTimes == 1
  {
  }

  lemma {:induction false} AllAnswer(md5: Md5, policy: Policy, w: World, id: string, p: Pending, wrong: string,
                                     now: int, k: nat, n: nat)
    requires k <= n && Counting(w.store, id) && Waiting(w, p, k, n)
    requires p.id == id && p.firstError && !Accepts(md5, p.verifier, wrong)
    ensures var es := Replies(wrong, now, k, n);
      var w' := Run(md5, policy, w, es);
      && WrongReplies(md5, policy, w, es, id) == n - k
      && StillOpen(w, w', id) && (k < n ==> w'.store.accounts[id].errorTimes == 1)
    decreases n - k
  {
    if k < n {
      var e := Reply(k, wrong, "", now);
      var w1 := Next(md5, policy, w, e);
      FirstOf(md5, policy, w, e, Replies(wrong, now, k + 1, n), id);
      OneAnswer(md5, policy, w, id, p, wrong, now, k, n);
      AllAnswer(md5, policy, w1, id, p, wrong, now, k + 1, n);
      assert Replies(wrong, now, k, n) == [e] + Replies(wrong, now, k + 1, n);
    } else {
      assert Replies(wrong, now, k, n) == [];
    }
  }

  /** Opened together on an expired counter, any number of sessions take a wrong reply each at the same time;
      the count stands at one and the account is still offered a login. */
  lemma GuessesUnbounded(md5: Md5, policy: Policy, w: World, id: string, r: string, wrong: string, now: int, n: nat)
    requires Counting(w.store, id) && OfferLogin(w.store, policy, id, r, now).Offered?
    requires w.store.accounts[id].errorTime + BLOCK_SECONDS < now && !Accepts(md5, RecordOf(w, id), wrong)
    ensures var es := Opens(id, r, now, 0, n) + Replies(wrong, now, 0, n);
      var w' := Run(md5, policy, w, es);
      && WrongReplies(md5, policy, w, es, id) == n
      && Counting(w'.store, id) && (n > 0 ==> w'.store.accounts[id].errorTimes == 1)
      && OfferLogin(w'.store, policy, id, r, now).Offered?
  {
    var p := OfferLogin(w.store, policy, id, r, now).pending;
    RunThen(md5, policy, w, Opens(id, r, now, 0, n), Replies(wrong, now, 0, n));
    WrongThen(md5, policy, w, Opens(id, r, now, 0, n), Replies(wrong, now, 0, n), id);
    AllOpen(md5, policy, w, id, r, now, 0, n);
    AllAnswer(md5, policy, Run(md5, policy, w, Opens(id, r, now, 0, n)), id, p, wrong, now, 0, n);
  }

  // ----- what an offer says after any run -----

  /** The three dates an offer depends on. */
  datatype Dates = Dates(block: int, login: int, update: int)

  /** Those of a user's row; None for an unknown user. */
  function DatesOf(st: Store, id: string): Option<Dates> {
    if id in st.accounts then
      Some(Dates(st.accounts[id].blockTime, st.accounts[id].loginDate, st.accounts[id].updateDate))
    else None
  }

  /** A good login, a password change and an approved unfreeze count as a visit. */
  ghost predicate Visits(md5: Md5, w: World, e: Event, id: string) {
    || Succeeds(md5, w, e, id)
    || (Changes(md5, w, e) && Subject(w, e) == id)
    || (e.Process? && e.id == id && e.requestType == UNFREEZE && e.mode == PASS)
  }

  ghost predicate Blocks(md5: Md5, w: World, e: Event, id: string) {
    && Wrong(md5, w, e, id) && !w.sessions[e.sid].firstError
    && id in w.store.accounts && w.store.accounts[id].errorTimes == 2
  }

  /** What one event makes of them: a registration sets all three. */
  ghost function NextDates(md5: Md5, w: World, e: Event, id: string, dates: Option<Dates>): Option<Dates> {
    match dates
    case None => if Enrols(w, e) && Subject(w, e) == id then Some(Dates(LONG_AGO, Day(e.now), Day(e.now))) else None
    case Some(d) => Some(Dates(
      if Blocks(md5, w, e, id) then e.now else d.block,
      if Visits(md5, w, e, id) then Day(e.now) else d.login,
      if Replaces(md5, w, e, id) then (if e.Change? then Day(e.now) else Day(LONG_AGO)) else d.update))
  }

  /** The dates that the events of a run leave: each is that of the last event that counts for it. */
  ghost function DatesAfter(md5: Md5, policy: Policy, w: World, es: seq<Event>, id: string,
                            dates: Option<Dates>): Option<Dates>
    decreases |es|
  {
    if es == [] then dates
    else DatesAfter(md5, policy, Next(md5, policy, w, es[0]), es[1..], id, NextDates(md5, w, es[0], id, dates))
  }

  ghost predicate UnknownOrCounting(w: World, id: string) {
    id in w.store.accounts ==> Counting(w.store, id)
  }

  lemma StepKeepsDates(md5: Md5, policy: Policy, w: World, e: Event, id: string)
    requires UnknownOrCounting(w, id)
    ensures UnknownOrCounting(Next(md5, policy, w, e), id)
    ensures DatesOf(Next(md5, policy, w, e).store, id) == NextDates(md5, w, e, id, DatesOf(w.store, id))
  {
    if id in w.store.accounts {
      KnownKeepsDates(md5, policy, w, e, id);
    }
  }

  lemma KnownKeepsDates(md5: Md5, policy: Policy, w: World, e: Event, id: string)
    requires Counting(w.store, id)
    ensures Counting(Next(md5, policy, w, e).store, id)
    ensures DatesOf(Next(md5, policy, w, e).store, id) == NextDates(md5, w, e, id, DatesOf(w.store, id))
  {
    ErrorFieldsAfter(md5, policy, w, e, id);
    var a, b := w.store.accounts[id], RowAfter(md5, policy, w, e, id);
    assert b.loginDate == (if Visits(md5, w, e, id) then Day(e.now) else a.loginDate);
    assert b.updateDate ==
      if Replaces(md5, w, e, id) then (if e.Change? then Day(e.now) else Day(LONG_AGO)) else a.updateDate;
  }

  lemma {:induction false} DatesOfRun(md5: Md5, policy: Policy, w: World, es: seq<Event>, id: string)
    requires UnknownOrCounting(w, id)
    ensures DatesOf(Run(md5, policy, w, es).store, id) == DatesAfter(md5, policy, w, es, id, DatesOf(w.store, id))
    decreases |es|
  {
    if es != [] {
      StepKeepsDates(md5, policy, w, es[0], id);
      DatesOfRun(md5, policy, Next(md5, policy, w, es[0]), es[1..], id);
    }
  }

  /** After every run: refused as unknown exactly without a registration, blocked for exactly five minutes from
      the last third error, frozen exactly when the period has passed since the last visit, and otherwise asked
      for a new password exactly when the period has passed since the last replacement, an approved reset
      counting as one long ago. */
  lemma OfferAfterRun(md5: Md5, policy: Policy, w: World, es: seq<Event>, id: string, newRandom: string, t: int)
    requires UnknownOrCounting(w, id)
    ensures var offer := OfferLogin(Run(md5, policy, w, es).store, policy, id, newRandom, t);
      match DatesAfter(md5, policy, w, es, id, DatesOf(w.store, id))
      case None => offer == Refused(S_FAILED)
      case Some(d) =>
        && (offer == Refused(S_BLOCK) <==> t < d.block + 5 * 60)
        && (offer == Refused(S_FROZEN) <==> t >= d.block + 5 * 60 && d.login + policy.noLoginPeriod < Day(t))
        && (offer.Offered? <==> t >= d.block + 5 * 60 && d.login + policy.noLoginPeriod >= Day(t))
        && (offer.Offered? ==> (offer.pending.updateDue <==> d.update + policy.passwordChangePeriod <= Day(t)))
  {
    DatesOfRun(md5, policy, w, es, id);
  }

  /** While an account is blocked no session of it is opened, whatever is sent to those already open. */
  lemma {:induction false} NoneOpensWhileBlocked(md5: Md5, policy: Policy, w: World, es: seq<Event>, id: string,
                                                 start: int)
    requires Counting(w.store, id) && w.store.accounts[id].blockTime >= start && AllInWindow(es, start)
    ensures OpenOf(Run(md5, policy, w, es), id) <= OpenOf(w, id)
    ensures WrongReplies(md5, policy, w, es, id) <= |OpenOf(w, id)|
    decreases |es|
  {
    if es != [] {
      var w' := Next(md5, policy, w, es[0]);
      assert InWindow(es[0], start);
      assert AllInWindow(es[1..], start);
      ErrorFieldsAfter(md5, policy, w, es[0], id);
      if Wrong(md5, w, es[0], id) {
        WrongCloses(md5, policy, w, es[0], id);
      } else {
        NothingOpens(md5, policy, w, es[0], id, start);
        FewerElements(OpenOf(w', id), OpenOf(w, id));
      }
      NoneOpensWhileBlocked(md5, policy, w', es[1..], id, start);
    }
  }

  ghost predicate NeverReplaced(md5: Md5, policy: Policy, w: World, es: seq<Event>, id: string)
    decreases |es|
  {
    es == [] || (!Replaces(md5, w, es[0], id) && NeverReplaced(md5, policy, Next(md5, policy, w, es[0]), es[1..], id))
  }

  lemma {:induction false} UpdateStays(md5: Md5, policy: Policy, w: World, es: seq<Event>, id: string, d: Dates)
    requires NeverReplaced(md5, policy, w, es, id)
    ensures var after := DatesAfter(md5, policy, w, es, id, Some(d));
      after.Some? && after.value.update == d.update
    decreases |es|
  {
    if es != [] {
      UpdateStays(md5, policy, Next(md5, policy, w, es[0]), es[1..], id, NextDates(md5, w, es[0], id, Some(d)).value);
    }
  }

  /** After an approved reset every offer asks for a new password until one is set, through any number of
      logins, as long as the policy's period is shorter than the time since 2000. */
  lemma ResetForcesChange(md5: Md5, policy: Policy, w: World, es: seq<Event>, id: string, now: int,
                          newRandom: string, t: int)
    requires Counting(w.store, id) && Day(LONG_AGO) + policy.passwordChangePeriod <= Day(t)
    requires NeverReplaced(md5, policy, Next(md5, policy, w, Process(id, RESET, PASS, now)), es, id)
    ensures var w' := Run(md5, policy, Next(md5, policy, w, Process(id, RESET, PASS, now)), es);
      var offer := OfferLogin(w'.store, policy, id, newRandom, t);
      offer.Offered? ==> offer.pending.updateDue
  {
    var reset := Process(id, RESET, PASS, now);
    var w1 := Next(md5, policy, w, reset);
    StepKeepsDates(md5, policy, w, reset, id);
    OfferAfterRun(md5, policy, w1, es, id, newRandom, t);
    UpdateStays(md5, policy, w1, es, id, DatesOf(w1.store, id).value);
  }
}
