/** Changing a password: the server offers the current and the last four records, the client hashes
    the new password against each, and the server refuses when any stored value is reproduced. */
module PasswordHistory {
  import opened HashChain
  import opened AccountStore
  import opened SKeyServer
  import opened DecimalKeys

  const NEW_KEY := "new"

  /** One JSON entry {"challenge", "random"} of the offer. */
  datatype Seed = Seed(challenge: int, random: string)

  function Verifiers(rows: seq<HistoryRow>): (vs: seq<Verifier>)
    ensures |vs| == |rows|
  {
    seq(|rows|, i requires 0 <= i < |rows| => rows[i].verifier)
  }

  /** The records compared: entry 0 is the account row, the others the past rows, newest first. */
  function Compared(st: Store, id: string): (vs: seq<Verifier>)
    requires id in st.accounts
    ensures 1 <= |vs| <= PAST_PASSWORDS + 1
  {
    [st.accounts[id].verifier] + Verifiers(PastRows(st, id))
  }

  /** They are the present row and the user's newest four past rows, in falling order of insertion. */
  lemma ComparedAre(st: Store, id: string)
    requires id in st.accounts
    ensures var vs, places := Compared(st, id), Places(st.history, id);
      && vs[0] == st.accounts[id].verifier
      && |vs| == 1 + (if |places| <= 4 then |places| else 4)
      && (forall k :: 1 <= k < |vs| ==> places[k - 1] < |st.history| && vs[k] == st.history[places[k - 1]].verifier)
  {
    PastRowsAreNewest(st, id);
  }

  ghost predicate IsOffer(rows: seq<Verifier>, newRandom: string, data: map<string, Seed>) {
    && (forall i :: 0 <= i < |rows| ==>
         Decimal(i) in data && data[Decimal(i)] == Seed(rows[i].challenge, rows[i].random))
    && NEW_KEY in data && data[NEW_KEY] == Seed(DEFAULT_CHALLENGE, newRandom)
  }

  function Answer(md5: Md5, password: string, v: Verifier): string {
    Chain(md5, password + v.random, v.challenge + 1)
  }

  ghost predicate IsAnswer(md5: Md5, password: string, rows: seq<Verifier>, newRandom: string, root: map<string,
                           string>) {
    && (forall i :: 0 <= i < |rows| ==> Decimal(i) in root && root[Decimal(i)] == Answer(md5, password, rows[i]))
    && NEW_KEY in root && root[NEW_KEY] == FreshIteration(md5, password, newRandom)
  }

  /** The server's offer; the source's five-slot array of stored values is rows' own iterations. */
  method MakeOffer(rows: seq<Verifier>, newRandom: string) returns (number: nat, data: map<string, Seed>)
    ensures number == |rows| && IsOffer(rows, newRandom, data)
    ensures "new" in data && data["new"] == Seed(255, newRandom)
  {
    data := map[];
    number := 0;
    while number < |rows|
      invariant 0 <= number <= |rows|
      invariant forall i :: 0 <= i < number ==>
        Decimal(i) in data && data[Decimal(i)] == Seed(rows[i].challenge, rows[i].random)
    {
      DistinctKeys(number + 1);
      data := data[Decimal(number) := Seed(rows[number].challenge, rows[number].random)];
      number := number + 1;
    }
    forall i | 0 <= i < number ensures Decimal(i) != NEW_KEY {
      DecimalIsNoWord(i, NEW_KEY);
    }
    data := data[NEW_KEY := Seed(DEFAULT_CHALLENGE, newRandom)];
  }

  /** One entry of the client's answer. */
  method AnswerTo(md5: Md5, newPassword: string, seed: Seed) returns (value: string)
    ensures value == Chain(md5, newPassword + seed.random, seed.challenge + 1)
  {
    value := PasswdToMD5(md5, newPassword, seed.random, seed.challenge + 1);
  }

  /** The client's loop over the row keys and the extra entry. */
  method ClientUpdatePassword(md5: Md5, newPassword: string, ghost rows: seq<Verifier>, ghost newRandom: string,
                              resNum: nat, data: map<string, Seed>)
    returns (root: map<string, string>)
    requires resNum == |rows| && IsOffer(rows, newRandom, data)
    ensures IsAnswer(md5, newPassword, rows, newRandom, root)
  {
    root := map[];
    var i := 0;
    while i < resNum
      invariant 0 <= i <= resNum
      invariant forall k :: 0 <= k < i ==> Decimal(k) in root && root[Decimal(k)] == Answer(md5, newPassword, rows[k])
    {
      var jsonData := data[Decimal(i)];
      var value := AnswerTo(md5, newPassword, jsonData);
      DistinctKeys(i + 1);
      root := root[Decimal(i) := value];
      i := i + 1;
    }
    forall k | 0 <= k < resNum ensures Decimal(k) != NEW_KEY {
      DecimalIsNoWord(k, NEW_KEY);
    }
    var newSeed := data[NEW_KEY];
    var value := AnswerTo(md5, newPassword, newSeed);
    root := root[NEW_KEY := value];
  }

  /** The answer has an entry for every row and the new value. */
  ghost predicate Complete(root: map<string, string>, rows: seq<Verifier>) {
    NEW_KEY in root && forall i :: 0 <= i < |rows| ==> Decimal(i) in root
  }

  /** Some answer equals the stored value it is compared with. */
  predicate Repeats(root: map<string, string>, rows: seq<Verifier>)
    requires Complete(root, rows)
  {
    exists i :: 0 <= i < |rows| && root[Decimal(i)] == rows[i].iteration
  }

  /** The server's comparison loop and the commit, for any answer that has the expected keys. */
  method FinishUpdate(db: DataBase, id: string, rows: seq<Verifier>, newRandom: string, root: map<string, string>,
                      now: int)
    returns (operate: int)
    requires Complete(root, rows)
    modifies db
    ensures operate == (if Repeats(root, rows) then S_FAILED else S_ACCESS)
    ensures db.State() ==
      if Repeats(root, rows) then old(db.State())
      else AfterUpdateValue(old(db.State()), id, root[NEW_KEY], true, newRandom, true, now)
  {
    var repeat := false;
    var i := 0;
    while i < |rows|
      invariant 0 <= i <= |rows|
      invariant !repeat
      invariant forall k :: 0 <= k < i ==> root[Decimal(k)] != rows[k].iteration
    {
      var recvIteration := root[Decimal(i)];
      if recvIteration == rows[i].iteration {
        repeat := true;
        break;
      }
      i := i + 1;
    }
    if repeat {
      return S_FAILED;
    }
    db.UpdateChallengeAndRandom(id, root[NEW_KEY], true, newRandom, true, now);
    return S_ACCESS;
  }

  /** Some stored value is what the new password gives. */
  ghost predicate Reproduces(md5: Md5, newPassword: string, rows: seq<Verifier>) {
    exists i :: 0 <= i < |rows| && Answer(md5, newPassword, rows[i]) == rows[i].iteration
  }

  function AfterChange(md5: Md5, st: Store, id: string, newPassword: string, newRandom: string, now: int): Store {
    AfterUpdateValue(st, id, FreshIteration(md5, newPassword, newRandom), true, newRandom, true, now)
  }

  /** Both ends together: the session changes the record unless a compared value is reproduced. */
  method UpdatePassword(md5: Md5, db: DataBase, id: string, newPassword: string, newRandom: string, now: int)
    returns (operate: int)
    requires id in db.accounts
    modifies db
    ensures operate == S_FAILED <==> Reproduces(md5, newPassword, Compared(old(db.State()), id))
    ensures db.State() ==
      if operate == S_FAILED then old(db.State())
      else AfterChange(md5, old(db.State()), id, newPassword, newRandom, now)
  {
    var rows := Compared(db.State(), id);
    var number, data := MakeOffer(rows, newRandom);
    var root := ClientUpdatePassword(md5, newPassword, rows, newRandom, number, data);
    assert Repeats(root, rows) <==> Reproduces(md5, newPassword, rows);
    operate := FinishUpdate(db, id, rows, newRandom, root, now);
  }

  // ----- whom the comparison binds -----

  /** Some other string for each row. */
  function Different(rows: seq<Verifier>, n: nat): (root: map<string, string>)
    requires n <= |rows|
    ensures forall i :: 0 <= i < n ==> Decimal(i) in root && root[Decimal(i)] != rows[i].iteration
  {
    if n == 0 then map[] else
      var last := n - 1;
      DistinctKeys(n);
      Different(rows, last)[Decimal(last) := if rows[last].iteration == "" then "0" else ""]
  }

  /** The server sees only strings that the client says it has computed. So the comparison binds honest clients
      alone: for every password at all, the present one included, there is a complete answer that is not refused
      and that stores a good record of it. */
  lemma OnlyHonestAnswersAreBound(md5: Md5, st: Store, id: string, password: string, newRandom: string, now: int)
    requires id in st.accounts && |password| <= MAX_PASSWORD && |newRandom| <= MAX_RANDOM
    ensures exists root ::
      && Complete(root, Compared(st, id)) && !Repeats(root, Compared(st, id))
      && StoresRecordOf(md5, st, id, password, newRandom, now, root)
  {
    var rows := Compared(st, id);
    forall i | 0 <= i < |rows| ensures Decimal(i) != NEW_KEY {
      DecimalIsNoWord(i, NEW_KEY);
    }
    var root := Different(rows, |rows|)[NEW_KEY := FreshIteration(md5, password, newRandom)];
    assert Complete(root, rows) && !Repeats(root, rows);
    assert StoresRecordOf(md5, st, id, password, newRandom, now, root);
  }

  /** Storing the new value of this answer leaves the user with a good record of the password. */
  ghost predicate StoresRecordOf(md5: Md5, st: Store, id: string, password: string, newRandom: string, now: int,
                                 root: map<string, string>) {
    NEW_KEY in root &&
      var st' := AfterUpdateValue(st, id, root[NEW_KEY], true, newRandom, true, now);
      id in st'.accounts && Holds(md5, password, st'.accounts[id].verifier)
  }

  // ----- whose passwords are compared -----

  /** The passwords of Newest's rows, in the same order. */
  function NewestOwners(history: seq<HistoryRow>, owners: seq<string>, id: string): (ps: seq<string>)
    requires |history| == |owners|
    ensures |ps| == |Newest(history, id)|
  {
    if history == [] then [] else
      var n := |history| - 1;
      (if history[n].uid == id then [owners[n]] else []) + NewestOwners(history[..n], owners[..n], id)
  }

  function FirstFour<T>(ps: seq<T>): seq<T> {
    if |ps| <= PAST_PASSWORDS then ps else ps[..PAST_PASSWORDS]
  }

  // ----- what the comparison means -----

  ghost predicate AllHold(md5: Md5, passwords: seq<string>, rows: seq<Verifier>) {
    |passwords| == |rows| && forall i :: 0 <= i < |rows| ==> Holds(md5, passwords[i], rows[i])
  }

  /** Re-using the password of any compared row is always noticed, whatever MD5 is. */
  lemma ReuseIsNoticed(md5: Md5, newPassword: string, passwords: seq<string>, rows: seq<Verifier>)
    requires AllHold(md5, passwords, rows) && newPassword in passwords
    ensures Reproduces(md5, newPassword, rows)
  {
    var i :| 0 <= i < |passwords| && passwords[i] == newPassword;
    assert Holds(md5, passwords[i], rows[i]);
    assert Answer(md5, newPassword, rows[i]) == rows[i].iteration;
  }

  /** And nothing else is refused: the new password equals one of the compared ones. */
  lemma OnlyReuseIsRefused(md5: Md5, newPassword: string, passwords: seq<string>, rows: seq<Verifier>,
                           hashed: set<string>)
    requires AllHold(md5, passwords, rows) && Reproduces(md5, newPassword, rows)
    requires CollisionFree(md5, hashed)
    requires forall i :: 0 <= i < |rows| ==>
      LinksIn(md5, newPassword + rows[i].random, rows[i].challenge + 1, hashed) &&
      LinksIn(md5, passwords[i] + rows[i].random, rows[i].challenge + 1, hashed)
    ensures newPassword in passwords
  {
    var i :| 0 <= i < |rows| && Answer(md5, newPassword, rows[i]) == rows[i].iteration;
    var r := rows[i].random;
    assert Holds(md5, passwords[i], rows[i]);
    ChainInjective(md5, newPassword + r, passwords[i] + r, rows[i].challenge + 1, hashed);
    SamePrefix(newPassword, passwords[i], r);
  }
}
