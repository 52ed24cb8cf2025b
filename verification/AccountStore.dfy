/** The server's account and password tables, and the statements DataBase issues on them. */
module AccountStore {
  const DEFAULT_CHALLENGE := 255
  const SECONDS_PER_DAY := 86400
  const LONG_AGO := 946684800  // 2000-01-01 00:00:00
  const PAST_PASSWORDS := 4

  /** What the server keeps to check the next reply: the last link shown, its count, the seed's random part. */
  datatype Verifier = Verifier(iteration: string, challenge: int, random: string)

  // The row an approved reset writes.
  const RESET_RANDOM := "123456"
  const RESET_VERIFIER := Verifier("52af3ce8a82f62707789fe00899ed3f0", 1, RESET_RANDOM)

  datatype Account = Account(
    name: string, blockTime: int, errorTime: int, loginDate: int, updateDate: int,
    errorTimes: int, verifier: Verifier, resetRequested: bool, unfreezeRequested: bool)

  datatype HistoryRow = HistoryRow(uid: string, verifier: Verifier)

  /** Rows of `password` are in insertion order, which is the order of P_no. */
  datatype Store = Store(accounts: map<string, Account>, history: seq<HistoryRow>)

  function Day(now: int): int {
    now / SECONDS_PER_DAY
  }

  /** The FROZEN trigger, before every update of an account row. */
  function Trigger(a: Account, now: int): Account {
    if a.errorTimes == 3 then a.(blockTime := now, errorTimes := 0) else a
  }

  function Update(st: Store, id: string, a: Account, now: int): Store {
    st.(accounts := st.accounts[id := Trigger(a, now)])
  }

  function NewAccount(name: string, v: Verifier, now: int): Account {
    Account(name, LONG_AGO, LONG_AGO, Day(now), Day(now), 0, v, false, false)
  }

  function AfterAddUser(st: Store, id: string, name: string, v: Verifier, now: int): Store {
    if id in st.accounts then st else st.(accounts := st.accounts[id := NewAccount(name, v, now)])
  }

  function Archived(st: Store, id: string): Store {
    if id in st.accounts then st.(history := st.history + [HistoryRow(id, st.accounts[id].verifier)]) else st
  }

  /** An accepted login under the same seed: the reply becomes the link to be checked next. */
  function Advance(v: Verifier, reply: string): Verifier {
    Verifier(reply, v.challenge - 1, v.random)
  }

  function Reseed(newIteration: string, newRandom: string): Verifier {
    Verifier(newIteration, DEFAULT_CHALLENGE, newRandom)
  }

  function AfterPasswordStamp(st: Store, id: string, now: int): Store {
    if id in st.accounts then
      Update(Archived(st, id), id, st.accounts[id].(updateDate := Day(now)), now)
    else st
  }

  function AfterVerifierUpdate(st: Store, id: string, newIteration: string, changeRand: bool, newRandom: string,
                               now: int): Store {
    if id !in st.accounts then st else
      var a := st.accounts[id];
      var v := if changeRand then Reseed(newIteration, newRandom) else Advance(a.verifier, newIteration);
      Update(st, id, a.(verifier := v, resetRequested := false, loginDate := Day(now)), now)
  }

  function AfterUpdateValue(st: Store, id: string, newIteration: string, changeRand: bool, newRandom: string,
                            changePassword: bool, now: int): Store {
    AfterVerifierUpdate(if changePassword then AfterPasswordStamp(st, id, now) else st,
                        id, newIteration, changeRand, newRandom, now)
  }

  function CountError(a: Account, isFirstError: bool, now: int): Account {
    if isFirstError then a.(errorTime := now, errorTimes := 1) else a.(errorTimes := a.errorTimes + 1)
  }

  function AfterLoginFailed(st: Store, id: string, isFirstError: bool, now: int): Store {
    if id in st.accounts then Update(st, id, CountError(st.accounts[id], isFirstError, now), now) else st
  }

  const RESET := 1
  const UNFREEZE := 2
  const PASS := 1
  const REJECT := 2

  predicate ValidRequest(requestType: int, mode: int) {
    (requestType == RESET || requestType == UNFREEZE) && (mode == PASS || mode == REJECT)
  }

  function AfterProcessRequest(st: Store, requestType: int, mode: int, id: string, now: int): Store {
    if !ValidRequest(requestType, mode) || id !in st.accounts then st else
      var a := st.accounts[id];
      if requestType == RESET then
        if mode == PASS then
          Update(Archived(st, id), id,
            a.(updateDate := Day(LONG_AGO), verifier := RESET_VERIFIER, resetRequested := false), now)
        else Update(st, id, a.(resetRequested := false), now)
      else if mode == PASS then
        Update(st, id, a.(loginDate := Day(now), unfreezeRequested := false), now)
      else Update(st, id, a.(unfreezeRequested := false), now)
  }

  function AfterSetFlag(st: Store, id: string, requestType: int, now: int): Store {
    if id !in st.accounts then st else
      var a := st.accounts[id];
      Update(st, id,
        if requestType == RESET then a.(resetRequested := true) else a.(unfreezeRequested := true), now)
  }

  // ----- the last password rows of one user, newest first -----

  function Newest(history: seq<HistoryRow>, id: string): seq<HistoryRow> {
    if history == [] then [] else
      var rest, last := history[..|history| - 1], history[|history| - 1];
      if last.uid == id then [last] + Newest(rest, id) else Newest(rest, id)
  }

  function PastRows(st: Store, id: string): (rows: seq<HistoryRow>)
    ensures |rows| <= PAST_PASSWORDS
  {
    var own := Newest(st.history, id);
    if |own| <= PAST_PASSWORDS then own else own[..PAST_PASSWORDS]
  }

  /** Where the user's rows are in the table, newest first. */
  function Places(history: seq<HistoryRow>, id: string): (places: seq<nat>)
    ensures |places| == |Newest(history, id)|
  {
    if history == [] then [] else
      var n := |history| - 1;
      (if history[n].uid == id then [n] else []) + Places(history[..n], id)
  }

  lemma {:induction false} PlacesOfNewest(history: seq<HistoryRow>, id: string)
    ensures forall k :: 0 <= k < |Places(history, id)| ==>
      Places(history, id)[k] < |history| && history[Places(history, id)[k]] == Newest(history, id)[k]
  {
    if history != [] {
      PlacesOfNewest(history[..|history| - 1], id);
    }
  }

  lemma {:induction false} PlacesFall(history: seq<HistoryRow>, id: string)
    ensures forall k, m :: 0 <= k < m < |Places(history, id)| ==> Places(history, id)[k] > Places(history, id)[m]
  {
    if history != [] {
      PlacesOfNewest(history[..|history| - 1], id);
      PlacesFall(history[..|history| - 1], id);
    }
  }

  /** No row of the user is missing and no other one is there. */
  lemma {:induction false} PlacesAreAll(history: seq<HistoryRow>, id: string, i: nat)
    requires i < |history|
    ensures history[i].uid == id <==> i in Places(history, id)
  {
    var n := |history| - 1;
    var rest := Places(history[..n], id);
    assert i in Places(history, id) <==> (i == n && history[n].uid == id) || i in rest;
    if i < n {
      PlacesAreAll(history[..n], id, i);
      assert history[..n][i] == history[i];
    } else {
      PlacesOfNewest(history[..n], id);
    }
  }

  /** The rows compared are the user's newest four, or all there are, in falling order of insertion. */
  lemma PastRowsAreNewest(st: Store, id: string)
    ensures var rows, places := PastRows(st, id), Places(st.history, id);
      && |rows| == (if |places| <= 4 then |places| else 4)
      && (forall k :: 0 <= k < |rows| ==>
           places[k] < |st.history| && rows[k] == st.history[places[k]] && rows[k].uid == id)
      && (forall k, m :: 0 <= k < m < |places| ==> places[k] > places[m])
      && (forall i :: 0 <= i < |st.history| ==> (st.history[i].uid == id <==> i in places))
  {
    PlacesOfNewest(st.history, id);
    PlacesFall(st.history, id);
    forall i | 0 <= i < |st.history| ensures st.history[i].uid == id <==> i in Places(st.history, id) {
      PlacesAreAll(st.history, id, i);
    }
    forall k | 0 <= k < |PastRows(st, id)| ensures PastRows(st, id)[k].uid == id {
      assert Places(st.history, id)[k] in Places(st.history, id);
    }
  }

  // ----- the statements, and what each leaves alone -----

  datatype Statement =
    | AddUser(id: string, name: string, verifier: Verifier)
    | UpdateValue(id: string, newIteration: string, changeRand: bool, newRandom: string, changePassword: bool)
    | LoginFailed(id: string, isFirstError: bool)
    | SetFlag(id: string, requestType: int)
    | ProcessRequest(id: string, requestType: int, mode: int)

  function Issue(st: Store, s: Statement, now: int): Store {
    match s
    case AddUser(id, name, verifier) => AfterAddUser(st, id, name, verifier, now)
    case UpdateValue(id, newIteration, changeRand, newRandom, changePassword) =>
      AfterUpdateValue(st, id, newIteration, changeRand, newRandom, changePassword, now)
    case LoginFailed(id, isFirstError) => AfterLoginFailed(st, id, isFirstError, now)
    case SetFlag(id, requestType) => AfterSetFlag(st, id, requestType, now)
    case ProcessRequest(id, requestType, mode) => AfterProcessRequest(st, requestType, mode, id, now)
  }

  function IssueAll(st: Store, ss: seq<(Statement, int)>): Store
    decreases |ss|
  {
    if ss == [] then st else IssueAll(Issue(st, ss[0].0, ss[0].1), ss[1..])
  }

  /** The statements that put another password's record in place of the present one. */
  predicate ReplacesRecord(s: Statement) {
    (s.UpdateValue? && s.changePassword) || (s.ProcessRequest? && s.requestType == RESET && s.mode == PASS)
  }

  /** A replaced record is not lost: it is appended for its user; no other statement touches the history. */
  lemma ReplacedIsArchived(st: Store, s: Statement, now: int)
    ensures Issue(st, s, now).history == st.history
      + if ReplacesRecord(s) && s.id in st.accounts then [HistoryRow(s.id, st.accounts[s.id].verifier)] else []
  {
  }

  /** A statement about one user leaves every other user's row and past rows as they were. */
  lemma OneUserOnly(st: Store, s: Statement, now: int, other: string)
    requires other != s.id
    ensures var st' := Issue(st, s, now);
      && (other in st'.accounts <==> other in st.accounts)
      && (other in st.accounts ==> st'.accounts[other] == st.accounts[other])
      && Newest(st'.history, other) == Newest(st.history, other)
  {
    ReplacedIsArchived(st, s, now);
    var st' := Issue(st, s, now);
    if ReplacesRecord(s) && s.id in st.accounts {
      assert st'.history[..|st'.history| - 1] == st.history;
    } else {
      assert st'.history == st.history;
    }
  }

  /** Over any statements in any order: no user disappears, past rows only get longer at the new end, and a
      user none of the statements is about keeps everything. */
  lemma {:induction false} NothingIsLost(st: Store, ss: seq<(Statement, int)>, id: string)
    requires id in st.accounts
    ensures var st' := IssueAll(st, ss);
      && id in st'.accounts && st.history <= st'.history
      && ((forall i :: 0 <= i < |ss| ==> ss[i].0.id != id) ==>
           st'.accounts[id] == st.accounts[id] && Newest(st'.history, id) == Newest(st.history, id))
    decreases |ss|
  {
    if ss != [] {
      var st1 := Issue(st, ss[0].0, ss[0].1);
      ReplacedIsArchived(st, ss[0].0, ss[0].1);
      NothingIsLost(st1, ss[1..], id);
      if ss[0].0.id != id {
        OneUserOnly(st, ss[0].0, ss[0].1, id);
      }
      assert ss[0] in ss && forall i :: 0 <= i < |ss| - 1 ==> ss[1..][i] == ss[i + 1];
    }
  }

  /** The verifier of a known user changes only through a login, a password change or an approved reset. */
  lemma OthersKeepVerifier(st: Store, s: Statement, now: int)
    requires s.id in st.accounts && !s.UpdateValue? && !ReplacesRecord(s)
    ensures s.id in Issue(st, s, now).accounts
    ensures Issue(st, s, now).accounts[s.id].verifier == st.accounts[s.id].verifier
  {
  }

  /** Field by field: which statement about a known user sets it, and to what. Error counts are below three. */
  lemma FieldsAfter(st: Store, s: Statement, now: int)
    requires InRange(st) && s.id in st.accounts
    ensures s.id in Issue(st, s, now).accounts
    ensures var a, b := st.accounts[s.id], Issue(st, s, now).accounts[s.id];
      && b.name == a.name
      && b.verifier == (
           if s.UpdateValue? && s.changeRand then Verifier(s.newIteration, 255, s.newRandom)
           else if s.UpdateValue? then Verifier(s.newIteration, a.verifier.challenge - 1, a.verifier.random)
           else if ReplacesRecord(s) then Verifier("52af3ce8a82f62707789fe00899ed3f0", 1, "123456")
           else a.verifier)
      && b.loginDate == (
           if s.UpdateValue? || (s.ProcessRequest? && s.requestType == 2 && s.mode == 1) then Day(now) else a.loginDate)
      && b.updateDate == (
           if s.UpdateValue? && s.changePassword then Day(now)
           else if s.ProcessRequest? && s.requestType == 1 && s.mode == 1 then Day(946684800)
           else a.updateDate)
    ensures var a, b := st.accounts[s.id], Issue(st, s, now).accounts[s.id];
      && b.resetRequested == (
           if s.SetFlag? && s.requestType == 1 then true
           else if s.UpdateValue? then false
           else if s.ProcessRequest? && s.requestType == 1 && (s.mode == 1 || s.mode == 2) then false
           else a.resetRequested)
      && b.unfreezeRequested == (
           if s.SetFlag? && s.requestType != 1 then true
           else if s.ProcessRequest? && s.requestType == 2 && (s.mode == 1 || s.mode == 2) then false
           else a.unfreezeRequested)
      && b.errorTime == (if s.LoginFailed? && s.isFirstError then now else a.errorTime)
      && (!s.LoginFailed? ==> b.errorTimes == a.errorTimes && b.blockTime == a.blockTime)
      && (s.LoginFailed? && s.isFirstError ==> b.errorTimes == 1 && b.blockTime == a.blockTime)
      && (s.LoginFailed? && !s.isFirstError && a.errorTimes < 2 ==>
           b.errorTimes == a.errorTimes + 1 && b.blockTime == a.blockTime)
      && (s.LoginFailed? && !s.isFirstError && a.errorTimes == 2 ==> b.errorTimes == 0 && b.blockTime == now)
  {
  }

  /** A statement about an unknown user does nothing, except that one can be added: with the given name and
      record, visited and changed today, no error, no block, and no request. */
  lemma UnknownAfter(st: Store, s: Statement, now: int)
    requires s.id !in st.accounts
    ensures !s.AddUser? ==> Issue(st, s, now) == st
    ensures s.AddUser? ==>
      && s.id in Issue(st, s, now).accounts && Issue(st, s, now).history == st.history
      && var b := Issue(st, s, now).accounts[s.id];
      && b.name == s.name && b.verifier == s.verifier && b.loginDate == Day(now) && b.updateDate == Day(now)
      && b.blockTime == b.errorTime == 946684800 && b.errorTimes == 0 && !b.resetRequested && !b.unfreezeRequested
  {
  }

  /** A day has 86400 seconds. */
  lemma DayIs(now: int)
    ensures 86400 * Day(now) <= now < 86400 * (Day(now) + 1)
  {
  }

  predicate InRange(st: Store) {
    forall id :: id in st.accounts ==> 0 <= st.accounts[id].errorTimes <= 2
  }

  /** The trigger keeps every error count below three, through any statements in any order. */
  lemma {:induction false} TriggerKeepsRange(st: Store, ss: seq<(Statement, int)>)
    requires InRange(st)
    ensures InRange(IssueAll(st, ss))
    decreases |ss|
  {
    if ss != [] {
      var s, now := ss[0].0, ss[0].1;
      forall id | id in Issue(st, s, now).accounts ensures 0 <= Issue(st, s, now).accounts[id].errorTimes <= 2 {
        if id != s.id {
          OneUserOnly(st, s, now, id);
        }
      }
      TriggerKeepsRange(Issue(st, s, now), ss[1..]);
    }
  }

  /** So it fires on the third counted error and at no other time. */
  lemma TriggerFiresIff(st: Store, s: Statement, now: int)
    requires InRange(st) && s.id in st.accounts && st.accounts[s.id].blockTime != now
    ensures s.id in Issue(st, s, now).accounts
    ensures Issue(st, s, now).accounts[s.id].blockTime == now
      <==> s.LoginFailed? && !s.isFirstError && st.accounts[s.id].errorTimes == 2
    ensures Issue(st, s, now).accounts[s.id].blockTime == now ==> Issue(st, s, now).accounts[s.id].errorTimes == 0
  {
  }

  class DataBase {
    var accounts: map<string, Account>
    var history: seq<HistoryRow>

    function State(): Store reads this {
      Store(accounts, history)
    }

    constructor ()
      ensures State() == Store(map[], [])
    {
      accounts := map[];
      history := [];
    }

    method UpdateRow(id: string, a: Account, now: int)
      modifies this`accounts
      ensures State() == Update(old(State()), id, a, now)
    {
      accounts := accounts[id := Trigger(a, now)];
    }

    method AddUser(userName: string, id: string, random: string, iterate: string, challenge: int, now: int)
      returns (added: bool)
      modifies this
      ensures added <==> id !in old(accounts)
      ensures State() == AfterAddUser(old(State()), id, userName, Verifier(iterate, challenge, random), now)
    {
      added := id !in accounts;
      if added {
        accounts := accounts[id := NewAccount(userName, Verifier(iterate, challenge, random), now)];
      }
    }

    method UpdateChallengeAndRandom(id: string, newIteration: string, changeRand: bool, newRandom: string,
                                    changePassword: bool, now: int)
      modifies this
      ensures State() == AfterUpdateValue(old(State()), id, newIteration, changeRand, newRandom, changePassword, now)
    {
      if id !in accounts {
        return;
      }
      if changePassword {
        history := history + [HistoryRow(id, accounts[id].verifier)];
        UpdateRow(id, accounts[id].(updateDate := Day(now)), now);
      }
      var a := accounts[id].(resetRequested := false, loginDate := Day(now));
      if changeRand {
        UpdateRow(id, a.(verifier := Reseed(newIteration, newRandom)), now);
      } else {
        UpdateRow(id, a.(verifier := Advance(a.verifier, newIteration)), now);
      }
    }

    method LoginFailed(id: string, isFirstError: bool, now: int)
      modifies this`accounts
      ensures State() == AfterLoginFailed(old(State()), id, isFirstError, now)
    {
      if id in accounts {
        var a := accounts[id];
        if isFirstError {
          UpdateRow(id, a.(errorTime := now, errorTimes := 1), now);
        } else {
          UpdateRow(id, a.(errorTimes := a.errorTimes + 1), now);
        }
      }
    }

    method SetFlag(id: string, requestType: int, now: int)
      modifies this`accounts
      ensures State() == AfterSetFlag(old(State()), id, requestType, now)
    {
      if id in accounts {
        if requestType == RESET {
          UpdateRow(id, accounts[id].(resetRequested := true), now);
        } else {
          UpdateRow(id, accounts[id].(unfreezeRequested := true), now);
        }
      }
    }

    method ProcessRequest(requestType: int, mode: int, id: string, now: int) returns (ret: int)
      modifies this
      ensures ret == (if ValidRequest(requestType, mode) then 0 else 1)
      ensures State() == AfterProcessRequest(old(State()), requestType, mode, id, now)
    {
      if requestType == RESET {
        if mode == PASS {
          if id in accounts {
            history := history + [HistoryRow(id, accounts[id].verifier)];
            var a := accounts[id].(updateDate := Day(LONG_AGO), verifier := RESET_VERIFIER, resetRequested := false);
            UpdateRow(id, a, now);
          }
        } else if mode == REJECT {
          if id in accounts {
            UpdateRow(id, accounts[id].(resetRequested := false), now);
          }
        } else {
          return 1;
        }
      } else if requestType == UNFREEZE {
        if mode == PASS {
          if id in accounts {
            UpdateRow(id, accounts[id].(loginDate := Day(now), unfreezeRequested := false), now);
          }
        } else if mode == REJECT {
          if id in accounts {
            UpdateRow(id, accounts[id].(unfreezeRequested := false), now);
          }
        } else {
          return 1;
        }
      } else {
        return 1;
      }
      return 0;
    }
  }
}
