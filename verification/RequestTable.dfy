/** The administrator's table of requests: rows fetched from the server, rows chosen and sent back, and the
    statements the server then runs. Lists travel as JSON objects keyed by row number. */
module RequestTable {
  import opened DecimalKeys
  import opened AccountStore
  import opened Optional

  const MAX_ROWS := 10000

  const C_REQUEST_PASS := 1010
  const C_REQUEST_REJECT := 1011

  // ----- choosing rows -----

  datatype TableRow = TableRow(selected: bool, checked: bool, id: string)

  predicate Chosen(r: TableRow) {
    r.selected || r.checked
  }

  function ChosenIds(rows: seq<TableRow>): seq<string> {
    if rows == [] then [] else
      var n := |rows| - 1;
      ChosenIds(rows[..n]) + (if Chosen(rows[n]) then [rows[n].id] else [])
  }

  lemma {:induction false} ChosenGrows(rows: seq<TableRow>, i: nat)
    requires i <= |rows|
    ensures |ChosenIds(rows[..i])| <= |ChosenIds(rows)|
    ensures i < |rows| && Chosen(rows[i]) ==> |ChosenIds(rows[..i])| < |ChosenIds(rows)|
  {
    if i < |rows| {
      var n := |rows| - 1;
      assert rows[..i] == rows[..n][..i];
      ChosenGrows(rows[..n], i);
    } else {
      assert rows[..i] == rows;
    }
  }

  /** Row by row: the ID of a row that is selected or checked, and nothing for any other. */
  lemma ChosenRowByRow(rows: seq<TableRow>, r: TableRow)
    ensures ChosenIds([]) == []
    ensures ChosenIds(rows + [r]) == ChosenIds(rows) + if r.selected || r.checked then [r.id] else []
  {
    assert (rows + [r])[..|rows|] == rows;
  }

  /** Count, allocate, fill: the two passes agree, so the array is filled exactly and in order. */
  method ChooseRows(rows: seq<TableRow>) returns (p: array<string>)
    ensures fresh(p) && p[..] == ChosenIds(rows)
  {
    var chooseCount := 0;
    var i := 0;
    while i < |rows|
      invariant 0 <= i <= |rows| && chooseCount == |ChosenIds(rows[..i])|
    {
      assert rows[..i + 1][..i] == rows[..i];
      if rows[i].selected || rows[i].checked {
        chooseCount := chooseCount + 1;
      }
      i := i + 1;
    }
    assert rows[..i] == rows;
    p := new string[chooseCount](_ => "");
    i := 0;
    var j := 0;
    while i < |rows|
      invariant 0 <= i <= |rows| && p.Length == chooseCount == |ChosenIds(rows)|
      invariant j == |ChosenIds(rows[..i])| <= chooseCount
      invariant p[..j] == ChosenIds(rows[..i])
    {
      ChosenGrows(rows, i);
      assert rows[..i + 1][..i] == rows[..i];
      if rows[i].selected || rows[i].checked {
        p[j] := rows[i].id;
        j := j + 1;
      }
      i := i + 1;
    }
    assert rows[..i] == rows && p[..j] == p[..];
  }

  // ----- the list as a JSON object -----

  datatype Json = Number(n: int) | Text(s: string)

  const TYPE_KEY := "type"
  const NUMBER_KEY := "number"

  ghost predicate Encodes(data: map<string, Json>, ids: seq<string>, requestType: int) {
    && TYPE_KEY in data && data[TYPE_KEY] == Number(requestType)
    && NUMBER_KEY in data && data[NUMBER_KEY] == Number(|ids|)
    && (forall i :: 0 <= i < |ids| ==> Decimal(i) in data && data[Decimal(i)] == Text(ids[i]))
    && (forall k :: k in data ==> k == TYPE_KEY || k == NUMBER_KEY || exists i :: 0 <= i < |ids| && k == Decimal(i))
  }

  /** An object encodes one list only. */
  lemma EncodesOne(data: map<string, Json>, a: seq<string>, b: seq<string>, s: int, t: int)
    requires Encodes(data, a, s) && Encodes(data, b, t)
    ensures a == b && s == t
  {
    forall i | 0 <= i < |a| ensures a[i] == b[i] {
      assert data[Decimal(i)] == Text(a[i]) && data[Decimal(i)] == Text(b[i]);
    }
  }

  datatype Message = Message(operate: int, data: map<string, Json>)

  /** The same with the keys read as numbers: row i lies under the decimal numeral of i, and under nothing else. */
  ghost predicate IsList(data: map<string, Json>, ids: seq<string>, requestType: int) {
    && "type" in data && data["type"] == Number(requestType)
    && "number" in data && data["number"] == Number(|ids|)
    && (forall i, key :: 0 <= i < |ids| && IsNumeral(key, i) ==> key in data && data[key] == Text(ids[i]))
    && (forall key :: key in data ==>
         key == "type" || key == "number" || exists i :: 0 <= i < |ids| && IsNumeral(key, i))
  }

  lemma EncodesIff(data: map<string, Json>, ids: seq<string>, requestType: int)
    ensures Encodes(data, ids, requestType) <==> IsList(data, ids, requestType)
  {
    forall i: nat, key: string ensures key == Decimal(i) <==> IsNumeral(key, i) {
      DecimalIff(key, i);
    }
    forall i | 0 <= i < |ids| ensures IsNumeral(Decimal(i), i) {
      DecimalIsNumeral(i);
    }
  }

  /** None: a row number did not fit the five-byte buffer. */
  method GetJson(p: seq<string>, operate: bool, requestType: int) returns (json: Option<Message>)
    ensures json.Some? <==> |p| <= 10000
    ensures json.Some? ==> json.value.operate == (if operate then 1010 else 1011)
    ensures json.Some? ==> Encodes(json.value.data, p, requestType) && IsList(json.value.data, p, requestType)
  {
    var data := map[TYPE_KEY := Number(requestType)];
    data := data[NUMBER_KEY := Number(|p|)];
    assert TYPE_KEY[0] != NUMBER_KEY[0];
    var i := 0;
    while i < |p|
      invariant 0 <= i <= |p| && i <= MAX_ROWS
      invariant TYPE_KEY in data && data[TYPE_KEY] == Number(requestType)
      invariant NUMBER_KEY in data && data[NUMBER_KEY] == Number(|p|)
      invariant forall k :: 0 <= k < i ==> Decimal(k) in data && data[Decimal(k)] == Text(p[k])
      invariant forall key :: key in data ==>
        key == TYPE_KEY || key == NUMBER_KEY || exists k :: 0 <= k < i && key == Decimal(k)
    {
      DecimalLength(i);
      if !Fits(i) {
        return None;
      }
      DistinctKeys(i + 1);
      DecimalIsNoWord(i, TYPE_KEY);
      DecimalIsNoWord(i, NUMBER_KEY);
      data := data[Decimal(i) := Text(p[i])];
      i := i + 1;
    }
    EncodesIff(data, p, requestType);
    return Some(Message(if operate then C_REQUEST_PASS else C_REQUEST_REJECT, data));
  }

  // ----- the server's loop over the same keys -----

  function ProcessAll(st: Store, requestType: int, mode: int, ids: seq<string>, now: int): Store {
    if ids == [] then st else
      var n := |ids| - 1;
      AfterProcessRequest(ProcessAll(st, requestType, mode, ids[..n], now), requestType, mode, ids[n], now)
  }

  method ServerProcess(db: DataBase, data: map<string, Json>, mode: int, now: int, ghost ids: seq<string>,
                       ghost requestType: int)
    requires Encodes(data, ids, requestType)
    modifies db
    ensures db.State() == ProcessAll(old(db.State()), requestType, mode, ids, now)
  {
    var t := data[TYPE_KEY].n;
    var number := data[NUMBER_KEY].n;
    var i := 0;
    assert ids[..0] == [];
    while i < number
      invariant 0 <= i <= number == |ids|
      invariant db.State() == ProcessAll(old(db.State()), requestType, mode, ids[..i], now)
    {
      var id := data[Decimal(i)].s;
      var ret := db.ProcessRequest(t, mode, id, now);
      assert ids[..i + 1][..i] == ids[..i];
      i := i + 1;
    }
    assert ids[..i] == ids;
  }

  /** Users not chosen keep their rows. */
  lemma {:induction false} OthersUntouched(st: Store, requestType: int, mode: int, ids: seq<string>, now: int,
                                           other: string)
    requires other !in ids
    ensures var st' := ProcessAll(st, requestType, mode, ids, now);
      (other in st'.accounts <==> other in st.accounts) &&
      (other in st.accounts ==> st'.accounts[other] == st.accounts[other])
  {
    if ids != [] {
      OthersUntouched(st, requestType, mode, ids[..|ids| - 1], now, other);
    }
  }

  lemma {:induction false} KnownStaysKnown(st: Store, requestType: int, mode: int, ids: seq<string>, now: int,
                                           id: string)
    requires id in st.accounts
    ensures id in ProcessAll(st, requestType, mode, ids, now).accounts
  {
    if ids != [] {
      KnownStaysKnown(st, requestType, mode, ids[..|ids| - 1], now, id);
    }
  }

  lemma {:induction false} ProcessKeepsRange(st: Store, requestType: int, mode: int, ids: seq<string>, now: int)
    requires InRange(st)
    ensures InRange(ProcessAll(st, requestType, mode, ids, now))
  {
    if ids != [] {
      var front, last := ids[..|ids| - 1], ids[|ids| - 1];
      ProcessKeepsRange(st, requestType, mode, front, now);
      var deciding := ProcessRequest(last, requestType, mode);
      TriggerKeepsRange(ProcessAll(st, requestType, mode, front, now), [(deciding, now)]);
      assert IssueAll(ProcessAll(st, requestType, mode, ids, now), []) == ProcessAll(st, requestType, mode, ids, now);
    }
  }

  /** What deciding one request makes of a row, in its fields alone: a reset approved (1, 1) or rejected (1, 2),
      an unfreezing approved (2, 1) or rejected (2, 2), and nothing for any other pair. */
  predicate Decided(requestType: int, mode: int, now: int, a: Account, b: Account) {
    && b.name == a.name && b.blockTime == a.blockTime && b.errorTime == a.errorTime && b.errorTimes == a.errorTimes
    && b.loginDate == (if requestType == 2 && mode == 1 then Day(now) else a.loginDate)
    && b.updateDate == (if requestType == 1 && mode == 1 then Day(946684800) else a.updateDate)
    && b.verifier == (if requestType == 1 && mode == 1 then Verifier("52af3ce8a82f62707789fe00899ed3f0", 1, "123456")
                      else a.verifier)
    && b.resetRequested == (if requestType == 1 && (mode == 1 || mode == 2) then false else a.resetRequested)
    && b.unfreezeRequested == (if requestType == 2 && (mode == 1 || mode == 2) then false else a.unfreezeRequested)
  }

  /** Every chosen user who is known has the request decided, however often the list names him. */
  lemma {:induction false} ChosenAreDecided(st: Store, requestType: int, mode: int, ids: seq<string>, now: int,
                                            id: string)
    requires InRange(st) && id in ids && id in st.accounts
    ensures var st' := ProcessAll(st, requestType, mode, ids, now);
      id in st'.accounts && Decided(requestType, mode, now, st.accounts[id], st'.accounts[id])
  {
    var front, last := ids[..|ids| - 1], ids[|ids| - 1];
    var before := ProcessAll(st, requestType, mode, front, now);
    KnownStaysKnown(st, requestType, mode, front, now, id);
    ProcessKeepsRange(st, requestType, mode, front, now);
    assert ProcessAll(st, requestType, mode, ids, now) == Issue(before, ProcessRequest(last, requestType, mode), now);
    if id in front {
      ChosenAreDecided(st, requestType, mode, front, now, id);
    } else {
      OthersUntouched(st, requestType, mode, front, now, id);
    }
    if last == id {
      FieldsAfter(before, ProcessRequest(last, requestType, mode), now);
    }
  }

  /** The past rows: one for each time an approved reset names a known user, the first of them the record that was
      replaced; none otherwise. */
  lemma {:induction false} ResetsAreArchived(st: Store, requestType: int, mode: int, ids: seq<string>, now: int,
                                             id: string)
    requires id in st.accounts
    ensures var st' := ProcessAll(st, requestType, mode, ids, now);
      var times := if requestType == 1 && mode == 1 then multiset(ids)[id] else 0;
      var rows := Newest(st'.history, id);
      && |rows| == times + |Newest(st.history, id)| && rows[times..] == Newest(st.history, id)
      && (times > 0 ==> rows[times - 1] == HistoryRow(id, st.accounts[id].verifier))
      && (forall k :: 0 <= k < times - 1 ==> rows[k] == HistoryRow(id, RESET_VERIFIER))
      && id in st'.accounts
      && (st'.accounts[id].verifier == if times > 0 then RESET_VERIFIER else st.accounts[id].verifier)
  {
    if ids != [] {
      var front, last := ids[..|ids| - 1], ids[|ids| - 1];
      assert ids == front + [last];
      ResetsAreArchived(st, requestType, mode, front, now, id);
      var before := ProcessAll(st, requestType, mode, front, now);
      var s := ProcessRequest(last, requestType, mode);
      assert ProcessAll(st, requestType, mode, ids, now) == Issue(before, s, now);
      ReplacedIsArchived(before, s, now);
      if last == id {
        var h := Issue(before, s, now).history;
        if requestType == 1 && mode == 1 {
          assert h[..|h| - 1] == before.history;
        } else {
          OthersKeepVerifier(before, s, now);
        }
      } else {
        OneUserOnly(before, s, now, id);
      }
    }
  }

  /** Only approved resets touch the past rows; a request of another type or mode changes nothing at all. */
  lemma {:induction false} HistoryStays(st: Store, requestType: int, mode: int, ids: seq<string>, now: int)
    ensures var st' := ProcessAll(st, requestType, mode, ids, now);
      && (requestType != 1 || mode != 1 ==> st'.history == st.history)
      && ((requestType != 1 && requestType != 2) || (mode != 1 && mode != 2) ==> st' == st)
  {
    if ids != [] {
      HistoryStays(st, requestType, mode, ids[..|ids| - 1], now);
    }
  }

  lemma AllDecided(st: Store, requestType: int, mode: int, ids: seq<string>, now: int)
    ensures var st' := ProcessAll(st, requestType, mode, ids, now);
      && (InRange(st) ==> forall id :: id in ids && id in st.accounts ==>
           id in st'.accounts && Decided(requestType, mode, now, st.accounts[id], st'.accounts[id]))
      && (forall id :: id !in ids ==>
           && (id in st'.accounts <==> id in st.accounts)
           && (id in st'.accounts ==> st'.accounts[id] == st.accounts[id]))
      && (requestType != 1 || mode != 1 ==> st'.history == st.history)
      && ((requestType != 1 && requestType != 2) || (mode != 1 && mode != 2) ==> st' == st)
  {
    HistoryStays(st, requestType, mode, ids, now);
    var st' := ProcessAll(st, requestType, mode, ids, now);
    if InRange(st) {
      forall id | id in ids && id in st.accounts
        ensures id in st'.accounts && Decided(requestType, mode, now, st.accounts[id], st'.accounts[id])
      {
        ChosenAreDecided(st, requestType, mode, ids, now, id);
      }
    }
    forall id | id !in ids
      ensures id in st'.accounts <==> id in st.accounts
      ensures id in st'.accounts ==> st'.accounts[id] == st.accounts[id]
    {
      OthersUntouched(st, requestType, mode, ids, now, id);
    }
  }

  /** From the table to the database: exactly the chosen users are processed, in table order. */
  method PassChosen(db: DataBase, rows: seq<TableRow>, operate: bool, requestType: int, now: int) returns (sent: bool)
    modifies db
    ensures sent <==> 0 < |ChosenIds(rows)| <= 10000
    ensures db.State() ==
      if sent then ProcessAll(old(db.State()), requestType, if operate then PASS else REJECT, ChosenIds(rows), now)
      else old(db.State())
    // what that means for the users: the chosen ones have the request decided, the others keep everything
    ensures sent && InRange(old(db.State())) ==> forall id :: id in ChosenIds(rows) && id in old(db.accounts) ==>
      id in db.accounts && Decided(requestType, if operate then 1 else 2, now, old(db.accounts[id]), db.accounts[id])
    ensures forall id :: id !in ChosenIds(rows) ==>
      && (id in db.accounts <==> id in old(db.accounts))
      && (id in db.accounts ==> db.accounts[id] == old(db.accounts[id]))
    ensures !operate || requestType != 1 ==> db.history == old(db.history)
    ensures requestType != 1 && requestType != 2 ==> db.State() == old(db.State())
  {
    ghost var st := db.State();
    var p := ChooseRows(rows);
    if p.Length == 0 {
      return false;
    }
    var json := GetJson(p[..], operate, requestType);
    if json.None? {
      return false;
    }
    var mode := if json.value.operate == C_REQUEST_PASS then PASS else REJECT;
    ServerProcess(db, json.value.data, mode, now, ChosenIds(rows), requestType);
    AllDecided(st, requestType, mode, ChosenIds(rows), now);
    return true;
  }

  // ----- fetching the table -----

  datatype ResultRow = ResultRow(id: string, name: string)

  method ServerGetRequest(rows: seq<ResultRow>) returns (data: Option<map<string, ResultRow>>)
    ensures data.Some? <==> |rows| <= 10000
    ensures data.Some? ==> forall i :: 0 <= i < |rows| ==> Decimal(i) in data.value && data.value[Decimal(i)] == rows[i]
    // with the keys read as numbers
    ensures data.Some? ==> forall i, key :: 0 <= i < |rows| && IsNumeral(key, i) ==>
      key in data.value && data.value[key] == rows[i]
  {
    var sendData: map<string, ResultRow> := map[];
    var i := 0;
    while i < |rows|
      invariant 0 <= i <= |rows| && i <= MAX_ROWS
      invariant forall k :: 0 <= k < i ==> Decimal(k) in sendData && sendData[Decimal(k)] == rows[k]
    {
      DecimalLength(i);
      if !Fits(i) {
        return None;
      }
      DistinctKeys(i + 1);
      sendData := sendData[Decimal(i) := rows[i]];
      i := i + 1;
    }
    forall k, key | 0 <= k < |rows| && IsNumeral(key, k) ensures key in sendData && sendData[key] == rows[k] {
      DecimalIff(key, k);
    }
    return Some(sendData);
  }

  /** The client reads the same rows back, in order. */
  method FetchTable(rows: seq<ResultRow>) returns (table: Option<array<ResultRow>>)
    ensures table.Some? <==> |rows| <= 10000
    ensures table.Some? ==> table.value[..] == rows
  {
    var data := ServerGetRequest(rows);
    if data.None? {
      return None;
    }
    var resNum := |rows|;
    var res := new ResultRow[resNum](_ => ResultRow("", ""));
    var i := 0;
    while i < resNum
      invariant 0 <= i <= resNum == res.Length
      invariant res[..i] == rows[..i]
    {
      res[i] := data.value[Decimal(i)];
      i := i + 1;
    }
    assert res[..] == rows;
    return Some(res);
  }
}
