/** boost::any: an object owning at most one heap-allocated holder. World records, for the proof only,
    which objects exist and which holder each of them owns; deleting demands that the holder is live. */
module AnyValue {
  import opened Optional

  const VOID := 0  // type_id<void>(), the type of an empty any

  type TypeId = nat

  /** A value together with its type. */
  datatype Held<V> = Held(typ: TypeId, data: V)

  class Holder<V> {
    const held: Held<V>

    constructor (held: Held<V>)
      ensures this.held == held
    {
      this.held := held;
    }
  }

  class World<V(!new)> {
    ghost var anys: set<Any<V>>
    ghost var owner: map<Holder<V>, Any<V>>

    constructor ()
      ensures Valid() && anys == {} && owner == map[]
    {
      anys := {};
      owner := map[];
    }

    /** Every content is live and owned by exactly this object; every live holder is some object's content. */
    ghost predicate Valid()
      reads this, anys
    {
      && (forall a :: a in anys && a.content != null ==> a.content in owner && owner[a.content] == a)
      && (forall h :: h in owner ==> owner[h] in anys && owner[h].content == h)
    }
  }

  class Any<V(!new)> {
    var content: Holder?<V>

    function Value(): Option<Held<V>>
      reads this
    {
      if content == null then None else Some(content.held)
    }

    constructor Empty(w: World<V>)
      requires w.Valid()
      modifies w
      ensures w.Valid() && w.anys == old(w.anys) + {this}
      ensures Value() == None
    {
      content := null;
      new;
      w.anys := w.anys + {this};
    }

    constructor FromValue(w: World<V>, value: Held<V>)
      requires w.Valid()
      modifies w
      ensures w.Valid() && w.anys == old(w.anys) + {this}
      ensures Value() == Some(value)
    {
      var h := new Holder(value);
      content := h;
      new;
      w.anys := w.anys + {this};
      w.owner := w.owner[h := this];
    }

    constructor Copy(w: World<V>, other: Any<V>)
      requires w.Valid() && other in w.anys
      modifies w
      ensures w.Valid() && w.anys == old(w.anys) + {this}
      ensures Value() == old(other.Value())
    {
      content := null;
      new;
      w.anys := w.anys + {this};
      if other.content != null {
        var h := new Holder(other.content.held);
        content := h;
        w.owner := w.owner[h := this];
      }
    }

    constructor Move(w: World<V>, other: Any<V>)
      requires w.Valid() && other in w.anys
      modifies w, other
      ensures w.Valid() && w.anys == old(w.anys) + {this}
      ensures Value() == old(other.Value()) && other.Value() == None
    {
      content := other.content;
      new;
      w.anys := w.anys + {this};
      if content != null {
        w.owner := w.owner[content := this];
      }
      other.content := null;
    }

    /** delete of a null pointer does nothing; any other pointer must be live. */
    method Delete(w: World<V>, h: Holder?<V>)
      requires h != null ==> h in w.owner
      modifies w
      ensures w.anys == old(w.anys)
      ensures w.owner == if h == null then old(w.owner) else map x | x in old(w.owner) && x != h :: old(w.owner)[x]
    {
      if h != null {
        w.owner := map x | x in w.owner && x != h :: w.owner[x];
      }
    }

    method Destroy(w: World<V>)
      requires w.Valid() && this in w.anys
      modifies w
      ensures w.Valid() && w.anys == old(w.anys) - {this}
    {
      Delete(w, content);
      w.anys := w.anys - {this};
    }

    method Swap(w: World<V>, rhs: Any<V>)
      requires w.Valid() && this in w.anys && rhs in w.anys
      modifies w, this, rhs
      ensures w.Valid() && w.anys == old(w.anys)
      ensures Value() == old(rhs.Value()) && rhs.Value() == old(Value())
    {
      var tmp := content;
      content := rhs.content;
      rhs.content := tmp;
      if content != null {
        w.owner := w.owner[content := this];
      }
      if rhs.content != null {
        w.owner := w.owner[rhs.content := rhs];
      }
    }

    /** any(rhs).swap(*this): also right when rhs is this object. */
    method CopyAssign(w: World<V>, rhs: Any<V>)
      requires w.Valid() && this in w.anys && rhs in w.anys
      modifies w, this
      ensures w.Valid() && w.anys == old(w.anys)
      ensures Value() == old(rhs.Value())
    {
      var temporary := new Any.Copy(w, rhs);
      temporary.Swap(w, this);
      temporary.Destroy(w);
    }

    /** rhs.swap(*this); any().swap(rhs): an object moved to itself ends up empty. */
    method MoveAssign(w: World<V>, rhs: Any<V>)
      requires w.Valid() && this in w.anys && rhs in w.anys
      modifies w, this, rhs
      ensures w.Valid() && w.anys == old(w.anys)
      ensures rhs.Value() == None
      ensures this != rhs ==> Value() == old(rhs.Value())
    {
      rhs.Swap(w, this);
      var temporary := new Any.Empty(w);
      temporary.Swap(w, rhs);
      temporary.Destroy(w);
    }

    method ValueAssign(w: World<V>, value: Held<V>)
      requires w.Valid() && this in w.anys
      modifies w, this
      ensures w.Valid() && w.anys == old(w.anys)
      ensures Value() == Some(value)
    {
      var temporary := new Any.FromValue(w, value);
      temporary.Swap(w, this);
      temporary.Destroy(w);
    }

    method Clear(w: World<V>)
      requires w.Valid() && this in w.anys
      modifies w, this
      ensures w.Valid() && w.anys == old(w.anys)
      ensures Value() == None
    {
      var temporary := new Any.Empty(w);
      temporary.Swap(w, this);
      temporary.Destroy(w);
    }

    function Type(): TypeId
      reads this
    {
      if content == null then VOID else content.held.typ
    }

    /** The address of the held value for the right type, null for any other and for an empty object. */
    method AnyCast(typ: TypeId) returns (p: Holder?<V>)
      requires typ != VOID
      ensures p != null <==> Value().Some? && Value().value.typ == typ
      ensures p != null ==> Some(p.held) == Value()
    {
      p := if Type() == typ then content else null;
    }
  }

  // ----- any sequence of operations on any number of objects -----

  datatype Op<V> =
    | NewEmpty | NewValue(value: Held<V>) | NewCopy(j: nat) | NewMove(j: nat) | Drop(i: nat)
    | AssignCopy(i: nat, j: nat) | AssignMove(i: nat, j: nat) | AssignValue(i: nat, value: Held<V>)
    | SwapWith(i: nat, j: nat) | MakeEmpty(i: nat)

  type Values<V> = seq<Option<Held<V>>>

  predicate Applies<V>(n: nat, op: Op<V>) {
    match op
    case NewEmpty => true
    case NewValue(_) => true
    case NewCopy(j) => j < n
    case NewMove(j) => j < n
    case Drop(i) => i < n
    case AssignCopy(i, j) => i < n && j < n
    case AssignMove(i, j) => i < n && j < n
    case AssignValue(i, _) => i < n
    case SwapWith(i, j) => i < n && j < n
    case MakeEmpty(i) => i < n
  }

  /** What each operation means for the values alone; an index out of range does nothing. */
  function After<V>(vs: Values<V>, op: Op<V>): Values<V> {
    if !Applies(|vs|, op) then vs else
      match op
      case NewEmpty => vs + [None]
      case NewValue(value) => vs + [Some(value)]
      case NewCopy(j) => vs + [vs[j]]
      case NewMove(j) => vs[j := None] + [vs[j]]
      case Drop(i) => vs[..i] + vs[i + 1..]
      case AssignCopy(i, j) => vs[i := vs[j]]
      case AssignMove(i, j) => vs[i := vs[j]][j := None]
      case AssignValue(i, value) => vs[i := Some(value)]
      case SwapWith(i, j) => vs[i := vs[j]][j := vs[i]]
      case MakeEmpty(i) => vs[i := None]
  }

  /** Entry by entry: how long the list becomes, and what stands at place k afterwards. */
  lemma AfterAt<V>(vs: Values<V>, op: Op<V>, k: nat)
    requires Applies(|vs|, op)
    ensures |After(vs, op)| == |vs|
      + (if op.NewEmpty? || op.NewValue? || op.NewCopy? || op.NewMove? then 1 else if op.Drop? then -1 else 0)
    ensures k == |vs| && (op.NewCopy? || op.NewMove?) ==> After(vs, op)[k] == vs[op.j]
    ensures k == |vs| && op.NewValue? ==> After(vs, op)[k] == Some(op.value)
    ensures k == |vs| && op.NewEmpty? ==> After(vs, op)[k] == None
    ensures op.Drop? && k < |vs| - 1 ==> After(vs, op)[k] == if k < op.i then vs[k] else vs[k + 1]
    ensures op.NewMove? && k < |vs| ==> After(vs, op)[k] == if k == op.j then None else vs[k]
    ensures op.AssignCopy? && k < |vs| ==> After(vs, op)[k] == if k == op.i then vs[op.j] else vs[k]
    ensures op.AssignMove? && k < |vs| ==>
      After(vs, op)[k] == if k == op.j then None else if k == op.i then vs[op.j] else vs[k]
    ensures op.SwapWith? && k < |vs| ==>
      After(vs, op)[k] == if k == op.i then vs[op.j] else if k == op.j then vs[op.i] else vs[k]
    ensures op.AssignValue? && k < |vs| ==> After(vs, op)[k] == if k == op.i then Some(op.value) else vs[k]
    ensures op.MakeEmpty? && k < |vs| ==> After(vs, op)[k] == if k == op.i then None else vs[k]
    ensures (op.NewEmpty? || op.NewValue? || op.NewCopy?) && k < |vs| ==> After(vs, op)[k] == vs[k]
  {
  }

  function AfterAll<V>(vs: Values<V>, ops: seq<Op<V>>): Values<V>
    decreases |ops|
  {
    if ops == [] then vs else AfterAll(After(vs, ops[0]), ops[1..])
  }

  predicate Different<T(==)>(objs: seq<T>) {
    forall i, j :: 0 <= i < j < |objs| ==> objs[i] != objs[j]
  }

  function Elements<T>(objs: seq<T>): set<T> {
    set o | o in objs
  }

  lemma ElementsWithout<T>(objs: seq<T>, i: nat)
    requires i < |objs| && Different(objs)
    ensures var rest := objs[..i] + objs[i + 1..];
      Different(rest) && Elements(rest) == Elements(objs) - {objs[i]}
  {
    var rest := objs[..i] + objs[i + 1..];
    assert forall k :: 0 <= k < |rest| ==> rest[k] == objs[if k < i then k else k + 1];
    forall o | o in Elements(objs) && o != objs[i] ensures o in rest {
      var k :| 0 <= k < |objs| && objs[k] == o;
      assert rest[if k < i then k else k - 1] == o;
    }
  }

  ghost predicate Owned<V(!new)>(w: World<V>, objs: seq<Any<V>>)
    reads w, w.anys
  {
    && w.Valid()
    && Different(objs)
    && w.anys == Elements(objs)
  }

  ghost predicate Shows<V(!new)>(objs: seq<Any<V>>, vs: Values<V>)
    reads objs
  {
    |vs| == |objs| && forall i :: 0 <= i < |objs| ==> objs[i].Value() == vs[i]
  }

  method Construct<V(!new)>(w: World<V>, objs: seq<Any<V>>, op: Op<V>, ghost vs: Values<V>)
    returns (result: seq<Any<V>>)
    requires Owned(w, objs) && Shows(objs, vs) && Applies(|objs|, op)
    requires op.NewEmpty? || op.NewValue? || op.NewCopy? || op.NewMove?
    modifies w, objs
    ensures Owned(w, result) && Shows(result, After(vs, op))
    ensures forall o :: o in result ==> o in objs || fresh(o)
  {
    var o: Any<V>;
    if op.NewEmpty? {
      o := new Any.Empty(w);
    } else if op.NewValue? {
      o := new Any.FromValue(w, op.value);
    } else if op.NewCopy? {
      o := new Any.Copy(w, objs[op.j]);
    } else {
      o := new Any.Move(w, objs[op.j]);
    }
    result := objs + [o];
  }

  lemma ShowsWithout<V(!new)>(objs: seq<Any<V>>, vs: Values<V>, i: nat)
    requires Shows(objs, vs) && i < |objs|
    ensures Shows(objs[..i] + objs[i + 1..], After(vs, Drop(i)))
  {
  }

  method Remove<V(!new)>(w: World<V>, objs: seq<Any<V>>, i: nat, ghost vs: Values<V>) returns (result: seq<Any<V>>)
    requires Owned(w, objs) && Shows(objs, vs) && i < |objs|
    modifies w, objs
    ensures Owned(w, result) && Shows(result, After(vs, Drop(i)))
    ensures forall o :: o in result ==> o in objs
  {
    ElementsWithout(objs, i);
    objs[i].Destroy(w);
    result := objs[..i] + objs[i + 1..];
    ShowsWithout(objs, vs, i);
  }

  method Assign<V(!new)>(w: World<V>, objs: seq<Any<V>>, i: nat, j: nat, move: bool, ghost vs: Values<V>)
    requires Owned(w, objs) && Shows(objs, vs) && i < |objs| && j < |objs|
    modifies w, objs
    ensures Owned(w, objs) && Shows(objs, After(vs, if move then AssignMove(i, j) else AssignCopy(i, j)))
  {
    if move {
      objs[i].MoveAssign(w, objs[j]);
    } else {
      objs[i].CopyAssign(w, objs[j]);
    }
  }

  method Modify<V(!new)>(w: World<V>, objs: seq<Any<V>>, op: Op<V>, ghost vs: Values<V>)
    requires Owned(w, objs) && Shows(objs, vs) && Applies(|objs|, op)
    requires op.AssignValue? || op.SwapWith? || op.MakeEmpty?
    modifies w, objs
    ensures Owned(w, objs) && Shows(objs, After(vs, op))
  {
    if op.AssignValue? {
      objs[op.i].ValueAssign(w, op.value);
    } else if op.SwapWith? {
      objs[op.i].Swap(w, objs[op.j]);
    } else {
      objs[op.i].Clear(w);
    }
  }

  method Execute<V(!new)>(w: World<V>, objs: seq<Any<V>>, op: Op<V>, ghost vs: Values<V>) returns (result: seq<Any<V>>)
    requires Owned(w, objs) && Shows(objs, vs)
    modifies w, objs
    ensures Owned(w, result) && Shows(result, After(vs, op))
    ensures forall o :: o in result ==> o in objs || fresh(o)
  {
    result := objs;
    if !Applies(|objs|, op) {
      return;
    }
    match op
    case Drop(i) => result := Remove(w, objs, i, vs);
    case AssignCopy(i, j) => Assign(w, objs, i, j, false, vs);
    case AssignMove(i, j) => Assign(w, objs, i, j, true, vs);
    case AssignValue(_, _) => Modify(w, objs, op, vs);
    case SwapWith(_, _) => Modify(w, objs, op, vs);
    case MakeEmpty(_) => Modify(w, objs, op, vs);
    case _ => result := Construct(w, objs, op, vs);
  }

  /** Whatever is done to any number of objects, in any order: no holder is deleted twice (Delete demands
      a live one), each live holder has exactly one owner, and the values are those of the plain semantics. */
  method ExecuteAll<V(!new)>(ops: seq<Op<V>>) returns (w: World<V>, objs: seq<Any<V>>)
    ensures fresh(w) && Owned(w, objs) && Shows(objs, AfterAll([], ops))
    ensures |AfterAll([], ops)| == 0 ==> w.owner == map[]
  {
    w := new World();
    objs := [];
    ghost var vs: Values<V> := [];
    var k := 0;
    while k < |ops|
      invariant 0 <= k <= |ops|
      invariant fresh(w) && forall i :: 0 <= i < |objs| ==> fresh(objs[i])
      invariant Owned(w, objs) && Shows(objs, vs)
      invariant AfterAll(vs, ops[k..]) == AfterAll([], ops)
    {
      var result := Execute(w, objs, ops[k], vs);
      forall i | 0 <= i < |result| ensures fresh(result[i]) {
        assert result[i] in result;
      }
      objs := result;
      vs := After(vs, ops[k]);
      assert ops[k..][1..] == ops[k + 1..];
      k := k + 1;
    }
  }
}
