/** Tables of named values: double-buffered updates and the registry of live tables. */
module Tables {
  import opened Options

  /** A parameter's value: nothing, text, or a number with its unit. */
  datatype Value = Empty | Text(text: string) | Int(int64: int, egu: string) | Flt(double: real, fegu: string)

  type Row = map<string, Value>

  // ----- what a sequence of set() calls amounts to

  datatype SetCall = SetCall(name: string, value: Value)

  function Fold(calls: seq<SetCall>): Row {
    if calls == [] then map[]
    else
      var last := calls[|calls| - 1];
      Fold(calls[..|calls| - 1])[last.name := last.value]
  }

  /** Index of the last call for a name. */
  ghost predicate IsLast(calls: seq<SetCall>, name: string, i: nat) {
    && i < |calls| && calls[i].name == name
    && forall k :: i < k < |calls| ==> calls[k].name != name
  }

  /** A name is in the result exactly when some call set it. */
  lemma {:induction false} SetIsFound(calls: seq<SetCall>, name: string)
    ensures name in Fold(calls) <==> exists i :: 0 <= i < |calls| && calls[i].name == name
  {
    if calls != [] {
      var n := |calls| - 1;
      SetIsFound(calls[..n], name);
      assert forall i :: 0 <= i < n ==> calls[..n][i] == calls[i];
    }
  }

  /** And it has the value the last such call gave it. */
  lemma {:induction false} LastSetWins(calls: seq<SetCall>, name: string, i: nat)
    requires IsLast(calls, name, i)
    ensures name in Fold(calls) && Fold(calls)[name] == calls[i].value
  {
    var n := |calls| - 1;
    if i < n {
      assert calls[n].name != name;
      LastSetWins(calls[..n], name, i);
    }
  }

  // ----- a table and an update of it

  class StatTable {
    var current: Row
    var currentTime: int

    constructor ()
      ensures current == map[] && currentTime == 0
    {
      current, currentTime := map[], 0;
    }

    /** `None` is the exception for an unknown parameter. */
    method Lookup(param: string) returns (v: Option<Value>)
      ensures v == if param in current then Some(current[param]) else None
    {
      if param !in current {
        return None;
      }
      v := Some(current[param]);
    }
  }

  /** Values collected by one update; nothing shows in the table before the commit. */
  class Transaction {
    const tbl: StatTable
    const nextTime: int
    var next: Row
    ghost var calls: seq<SetCall>

    ghost predicate Valid()
      reads this
    {
      next == Fold(calls)
    }

    constructor (tbl: StatTable, now: int)
      ensures Valid() && calls == [] && this.tbl == tbl && nextTime == now
    {
      this.tbl := tbl;
      nextTime, next, calls := now, map[], [];
    }

    method Set(name: string, value: Value)
      requires Valid()
      modifies this
      ensures Valid() && calls == old(calls) + [SetCall(name, value)]
    {
      next := next[name := value];
      calls := calls + [SetCall(name, value)];
      assert calls[..|calls| - 1] == old(calls);
    }

    /** The destructor, which runs when the update returns and when it throws. */
    method Commit()
      requires Valid()
      modifies tbl
      ensures tbl.current == Fold(calls) && tbl.currentTime == nextTime
    {
      tbl.current := next;
      tbl.currentTime := nextTime;
    }
  }

  /** An update that makes `calls` in order and throws after the first `upTo` of them (or, when
      `upTo == |calls|`, returns).  Either way the transaction ends and commits. */
  method Update(tbl: StatTable, now: int, calls: seq<SetCall>, upTo: nat)
    requires upTo <= |calls|
    modifies tbl
    ensures tbl.current == Fold(calls[..upTo]) && tbl.currentTime == now
  {
    var tr := new Transaction(tbl, now);
    for i := 0 to upTo
      invariant tr.Valid() && tr.calls == calls[..i] && fresh(tr) && tr.tbl == tbl && tr.nextTime == now
    {
      tr.Set(calls[i].name, calls[i].value);
      assert calls[..i + 1] == calls[..i] + [calls[i]];
    }
    tr.Commit();
  }

  // ----- snapshots: any number of transactions open on one table

  /** `open`: the set() calls each transaction has made so far. */
  datatype TableState = TableState(current: Row, open: map<nat, seq<SetCall>>)

  datatype TableStep = Begin(id: nat) | MakeCall(id: nat, call: SetCall) | Commit(id: nat)

  predicate TableEnabled(s: TableState, l: TableStep) {
    match l
    case Begin(id) => id !in s.open
    case MakeCall(id, _) => id in s.open
    case Commit(id) => id in s.open
  }

  function TableApply(s: TableState, l: TableStep): TableState
    requires TableEnabled(s, l)
  {
    match l
    case Begin(id) => s.(open := s.open[id := []])
    case MakeCall(id, call) => s.(open := s.open[id := s.open[id] + [call]])
    case Commit(id) => TableState(Fold(s.open[id]), s.open - {id})
  }

  ghost predicate TableRun(ss: seq<TableState>, ls: seq<TableStep>) {
    && |ss| == |ls| + 1
    && ss[0] == TableState(map[], map[])
    && forall i {:trigger ls[i]} :: 0 <= i < |ls| ==>
         TableEnabled(ss[i], ls[i]) && ss[i + 1] == TableApply(ss[i], ls[i])
  }

  /** The calls transaction `id` has made between steps `first` and `end`, read off the run. */
  function CallsOf(ls: seq<TableStep>, id: nat, first: nat, end: nat): seq<SetCall>
    requires first <= end <= |ls|
    decreases end
  {
    if first == end then []
    else
      CallsOf(ls, id, first, end - 1)
      + match ls[end - 1]
        case MakeCall(i, call) => if i == id then [call] else []
        case _ => []
  }

  /** Step `b` begins transaction `id` and nothing ends it before step `k`. */
  ghost predicate OpenSince(ls: seq<TableStep>, id: nat, b: nat, k: nat) {
    && b < k <= |ls| && ls[b] == Begin(id)
    && forall i :: b < i < k ==> ls[i] != Commit(id)
  }

  lemma {:induction false} OpenHoldsItsCalls(ss: seq<TableState>, ls: seq<TableStep>, id: nat, b: nat, k: nat)
    requires TableRun(ss, ls) && OpenSince(ls, id, b, k)
    ensures id in ss[k].open && ss[k].open[id] == CallsOf(ls, id, b, k)
    decreases k
  {
    var l := ls[k - 1];
    if b == k - 1 {
      assert CallsOf(ls, id, b, b) == [];
    } else {
      OpenHoldsItsCalls(ss, ls, id, b, k - 1);
      assert l != Commit(id);
    }
  }

  lemma {:induction false} EmptyUntilCommit(ss: seq<TableState>, ls: seq<TableStep>, k: nat)
    requires TableRun(ss, ls) && k <= |ls| && forall i :: 0 <= i < k ==> !ls[i].Commit?
    ensures ss[k].current == map[]
  {
    if k > 0 {
      EmptyUntilCommit(ss, ls, k - 1);
      assert !ls[k - 1].Commit?;
    }
  }

  lemma {:induction false} CommitShows(ss: seq<TableState>, ls: seq<TableStep>, id: nat, b: nat, c: nat, k: nat)
    requires TableRun(ss, ls) && OpenSince(ls, id, b, c) && c < |ls| && ls[c] == Commit(id)
    requires c < k <= |ls| && forall i :: c < i < k ==> !ls[i].Commit?
    ensures ss[k].current == Fold(CallsOf(ls, id, b, c))
    decreases k
  {
    if k == c + 1 {
      OpenHoldsItsCalls(ss, ls, id, b, c);
    } else {
      CommitShows(ss, ls, id, b, c, k - 1);
      assert !ls[k - 1].Commit?;
    }
  }

  /** An open transaction was begun, and has not been committed since. */
  lemma {:induction false} OpenWasBegun(ss: seq<TableState>, ls: seq<TableStep>, id: nat, k: nat) returns (b: nat)
    requires TableRun(ss, ls) && k <= |ls| && id in ss[k].open
    ensures OpenSince(ls, id, b, k)
  {
    if ls[k - 1] == Begin(id) {
      b := k - 1;
    } else {
      b := OpenWasBegun(ss, ls, id, k - 1);
    }
  }

  /** Step `c` commits transaction `id`, begun at step `b`, and no later step before `k` commits any. */
  ghost predicate LastCommit(ls: seq<TableStep>, id: nat, b: nat, c: nat, k: nat) {
    && c < k <= |ls| && ls[c] == Commit(id) && OpenSince(ls, id, b, c)
    && forall i :: c < i < k ==> !ls[i].Commit?
  }

  /** What a reader sees at any moment is nothing, before the first commit, or the result of exactly the
      calls that the transaction committed last made from its beginning, however other transactions were
      interleaved with it. */
  lemma {:induction false} ReaderSeesOneTransaction(ss: seq<TableState>, ls: seq<TableStep>, k: nat)
    returns (committed: bool, id: nat, b: nat, c: nat)
    requires TableRun(ss, ls) && k <= |ls|
    ensures committed <==> exists i :: 0 <= i < k && ls[i].Commit?
    ensures if committed then LastCommit(ls, id, b, c, k) && ss[k].current == Fold(CallsOf(ls, id, b, c))
            else ss[k].current == map[]
  {
    committed, id, b, c := exists i :: 0 <= i < k && ls[i].Commit?, 0, 0, 0;
    if committed {
      c := LastCommitStep(ls, k);
      id := ls[c].id;
      b := OpenWasBegun(ss, ls, id, c);
      CommitShows(ss, ls, id, b, c, k);
    } else {
      EmptyUntilCommit(ss, ls, k);
    }
  }

  lemma {:induction false} LastCommitStep(ls: seq<TableStep>, k: nat) returns (c: nat)
    requires k <= |ls| && exists i :: 0 <= i < k && ls[i].Commit?
    ensures c < k && ls[c].Commit? && forall i :: c < i < k ==> !ls[i].Commit?
  {
    if ls[k - 1].Commit? {
      c := k - 1;
    } else {
      c := LastCommitStep(ls, k - 1);
    }
  }
}
