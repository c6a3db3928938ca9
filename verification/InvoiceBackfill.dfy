/**
 The start-up backfill of `sales_invoice_order_key` and its partial unique index, over
 whole histories of start-ups, killed start-ups, inserts and removals.
 */
module InvoiceBackfill {
  import opened Prelude

  const SALES_INVOICE := "SalesInvoice"

  datatype Invoice = Invoice(id: string, orderId: string, invoiceType: string, key: Option<string>)

  /** The invoices table: rows, whether the key column exists, the old order index and the new key index. */
  datatype Table = Table(rows: seq<Invoice>, hasColumn: bool, orderIndex: bool, keyIndex: bool)

  predicate IsSales(r: Invoice) {
    r.invoiceType == SALES_INVOICE
  }

  function SalesCount(rows: seq<Invoice>, orderId: string): nat {
    if rows == [] then 0
    else SalesCount(rows[..|rows| - 1], orderId)
         + if IsSales(rows[|rows| - 1]) && rows[|rows| - 1].orderId == orderId then 1 else 0
  }

  predicate UniqueKeys(rows: seq<Invoice>) {
    forall i, j | 0 <= i < j < |rows| && rows[i].key.Some? :: rows[i].key != rows[j].key
  }

  predicate UniqueSalesOrders(rows: seq<Invoice>) {
    forall i, j | 0 <= i < j < |rows| && IsSales(rows[i]) && IsSales(rows[j]) :: rows[i].orderId != rows[j].orderId
  }

  /** What the database engine itself enforces. */
  predicate Enforced(t: Table) {
    && (t.keyIndex ==> t.hasColumn && UniqueKeys(t.rows))
    && (t.orderIndex ==> UniqueSalesOrders(t.rows))
    && (!t.hasColumn ==> forall i | 0 <= i < |t.rows| :: t.rows[i].key == None)
  }

  /** A set key is the row's own order id, and only sales invoices have one. */
  predicate OwnKeys(rows: seq<Invoice>) {
    forall i | 0 <= i < |rows| && rows[i].key.Some? :: IsSales(rows[i]) && rows[i].key.value == rows[i].orderId
  }

  /** The WHERE clause of the backfill. */
  predicate ToBackfill(rows: seq<Invoice>, r: Invoice) {
    IsSales(r) && r.key == None && SalesCount(rows, r.orderId) == 1
  }

  function Backfilled(rows: seq<Invoice>): (r: seq<Invoice>)
    ensures |r| == |rows|
  {
    seq(|rows|, i requires 0 <= i < |rows| =>
      if ToBackfill(rows, rows[i]) then rows[i].(key := Some(rows[i].orderId)) else rows[i])
  }

  /** An order still holding a sales invoice without a key. */
  predicate LeftUnkeyed(rows: seq<Invoice>, orderId: string) {
    exists i :: 0 <= i < |rows| && IsSales(rows[i]) && rows[i].key == None && rows[i].orderId == orderId
  }

  // ----- counting -----

  lemma {:induction false} CountAtLeastOne(rows: seq<Invoice>, i: nat)
    requires i < |rows| && IsSales(rows[i])
    ensures SalesCount(rows, rows[i].orderId) >= 1
    decreases |rows|
  {
    if i < |rows| - 1 {
      CountAtLeastOne(rows[..|rows| - 1], i);
    }
  }

  lemma {:induction false} CountAtLeastTwo(rows: seq<Invoice>, i: nat, j: nat)
    requires i < j < |rows| && IsSales(rows[i]) && IsSales(rows[j]) && rows[i].orderId == rows[j].orderId
    ensures SalesCount(rows, rows[i].orderId) >= 2
    decreases |rows|
  {
    if j < |rows| - 1 {
      CountAtLeastTwo(rows[..|rows| - 1], i, j);
    } else {
      CountAtLeastOne(rows[..|rows| - 1], i);
    }
  }

  /** Keys play no part in the counts. */
  lemma {:induction false} CountIgnoresKeys(a: seq<Invoice>, b: seq<Invoice>, orderId: string)
    requires |a| == |b| && forall i | 0 <= i < |a| :: b[i] == a[i].(key := b[i].key)
    ensures SalesCount(a, orderId) == SalesCount(b, orderId)
    decreases |a|
  {
    if a != [] {
      CountIgnoresKeys(a[..|a| - 1], b[..|b| - 1], orderId);
    }
  }

  // ----- the backfill itself -----

  /** Backfilling rows whose keys are their own and unique keeps them own and unique. */
  lemma BackfillKeepsKeysUnique(rows: seq<Invoice>)
    requires OwnKeys(rows) && UniqueKeys(rows)
    ensures OwnKeys(Backfilled(rows)) && UniqueKeys(Backfilled(rows))
  {
    var b := Backfilled(rows);
    forall i, j | 0 <= i < j < |b| && b[i].key.Some? ensures b[i].key != b[j].key {
      if b[i].key == b[j].key {
        CountAtLeastTwo(rows, i, j);
      }
    }
  }

  lemma BackfillIsIdempotent(rows: seq<Invoice>)
    ensures Backfilled(Backfilled(rows)) == Backfilled(rows)
  {
    var b := Backfilled(rows);
    forall i | 0 <= i < |b| ensures Backfilled(b)[i] == b[i] {
      CountIgnoresKeys(rows, b, b[i].orderId);
    }
  }

  /**
   After a backfill the report is exact: an order is left unkeyed iff it has such a row
   already and more than one sales invoice.
   */
  lemma ReportIsExact(rows: seq<Invoice>, orderId: string)
    ensures LeftUnkeyed(Backfilled(rows), orderId) <==> LeftUnkeyed(rows, orderId) && SalesCount(rows, orderId) >= 2
    ensures SalesCount(Backfilled(rows), orderId) == SalesCount(rows, orderId)
  {
    var b := Backfilled(rows);
    CountIgnoresKeys(rows, b, orderId);
    if LeftUnkeyed(b, orderId) {
      var i :| 0 <= i < |b| && IsSales(b[i]) && b[i].key == None && b[i].orderId == orderId;
      CountAtLeastOne(rows, i);
      assert !ToBackfill(rows, rows[i]);
    }
    if LeftUnkeyed(rows, orderId) && SalesCount(rows, orderId) >= 2 {
      var i :| 0 <= i < |rows| && IsSales(rows[i]) && rows[i].key == None && rows[i].orderId == orderId;
      assert b[i] == rows[i];
    }
  }

  // ----- one start-up -----

  /** The table a successful start-up leaves. */
  function Started(t: Table): Table {
    Table(Backfilled(t.rows), true, false, true)
  }

  /** The table as SQLite leaves it when the start-up throws on the index. */
  function FailedStart(t: Table): Table {
    if t.keyIndex then t else Table(Backfilled(t.rows), true, false, false)
  }

  /** The statements of a start-up; nothing makes them one transaction. */
  datatype Statement = AddColumn | UpdateKeys | DropOrderIndex | CreateKeyIndex

  const STATEMENTS := [AddColumn, UpdateKeys, DropOrderIndex, CreateKeyIndex]

  /** What a statement does, or None where the database engine refuses it. */
  function Execute(t: Table, s: Statement): Option<Table> {
    match s
    case AddColumn => Some(t.(hasColumn := true))
    case UpdateKeys =>
      if t.keyIndex && !UniqueKeys(Backfilled(t.rows)) then None else Some(t.(rows := Backfilled(t.rows)))
    case DropOrderIndex => Some(t.(orderIndex := false))
    case CreateKeyIndex => if !t.keyIndex && !UniqueKeys(t.rows) then None else Some(t.(keyIndex := true))
  }

  /** The first `n` statements: Ok with the table so far, or Err once one was refused and the start-up threw. */
  function StartUpTo(t: Table, n: nat): Result<Table, Table>
    requires n <= |STATEMENTS|
  {
    if n == 0 then Ok(t) else
      match StartUpTo(t, n - 1)
      case Err(stopped) => Err(stopped)
      case Ok(before) =>
        match Execute(before, STATEMENTS[n - 1])
        case None => Err(before)
        case Some(after) => Ok(after)
  }

  /** All statements in a row are a start-up. */
  lemma StatementsAreStartUp(t: Table)
    requires Enforced(t)
    ensures StartUpTo(t, |STATEMENTS|) ==
      if UniqueKeys(Backfilled(t.rows)) then Ok(Started(t)) else Err(FailedStart(t))
  {
    hide Backfilled, UniqueKeys;
    assert StartUpTo(t, 0) == Ok(t);
    assert StartUpTo(t, 1) == Ok(t.(hasColumn := true));
    assert StartUpTo(t, 2).Ok? ==> StartUpTo(t, 2).value == t.(hasColumn := true, rows := Backfilled(t.rows));
    assert StartUpTo(t, 3).Ok? ==>
      StartUpTo(t, 3).value == t.(hasColumn := true, rows := Backfilled(t.rows), orderIndex := false);
  }

  predicate HasKey(rows: seq<Invoice>, key: string) {
    exists i :: 0 <= i < |rows| && rows[i].key == Some(key)
  }

  /** The table when the UPDATE has passed its first `i` rows. */
  function Midway(before: seq<Invoice>, i: nat): (r: seq<Invoice>)
    requires i <= |before|
    ensures |r| == |before|
  {
    Backfilled(before)[..i] + before[i..]
  }

  lemma UpdateBegins(before: seq<Invoice>)
    ensures Midway(before, 0) == before
  {
  }

  lemma UpdateEnds(before: seq<Invoice>)
    ensures Midway(before, |before|) == Backfilled(before)
    ensures UniqueSalesOrders(before) ==> UniqueSalesOrders(Backfilled(before))
  {
  }

  function Keyed(rows: seq<Invoice>, i: nat): seq<Invoice>
    requires i < |rows|
  {
    rows[i := rows[i].(key := Some(rows[i].orderId))]
  }

  lemma RowNotYetReached(before: seq<Invoice>, i: nat)
    requires i < |before|
    ensures Midway(before, i)[i] == before[i]
    ensures ToBackfill(Midway(before, i), before[i]) <==> ToBackfill(before, before[i])
  {
    CountIgnoresKeys(before, Midway(before, i), before[i].orderId);
  }

  lemma NextRow(before: seq<Invoice>, i: nat)
    requires i < |before|
    ensures Midway(before, i + 1) ==
      if ToBackfill(before, before[i]) then Keyed(Midway(before, i), i) else Midway(before, i)
  {
    assert Backfilled(before)[..i + 1] == Backfilled(before)[..i] + [Backfilled(before)[i]];
  }

  lemma RefusedRow(before: seq<Invoice>, i: nat)
    requires i < |before| && ToBackfill(before, before[i]) && HasKey(Midway(before, i), before[i].orderId)
    ensures !UniqueKeys(Backfilled(before))
  {
    var rows, after := Midway(before, i), Backfilled(before);
    var j :| 0 <= j < |rows| && rows[j].key == Some(before[i].orderId);
    assert after[i].key == after[j].key == Some(before[i].orderId) && i != j;
  }

  lemma AcceptedRow(rows: seq<Invoice>, i: nat)
    requires i < |rows| && UniqueKeys(rows) && !HasKey(rows, rows[i].orderId)
    ensures UniqueKeys(Keyed(rows, i))
  {
  }

  /** One row of the UPDATE: what it writes, and when the key index refuses it. */
  lemma UpdateRow(before: seq<Invoice>, i: nat)
    requires i < |before|
    ensures var rows := Midway(before, i);
      && Midway(before, i + 1) == (if ToBackfill(rows, rows[i]) then Keyed(rows, i) else rows)
      && (ToBackfill(rows, rows[i]) && HasKey(rows, rows[i].orderId) ==> !UniqueKeys(Backfilled(before)))
      && (!HasKey(rows, rows[i].orderId) && UniqueKeys(rows) ==> UniqueKeys(Keyed(rows, i)))
  {
    hide Backfilled, UniqueKeys, ToBackfill, HasKey, Keyed, Midway;
    var rows := Midway(before, i);
    RowNotYetReached(before, i);
    NextRow(before, i);
    if ToBackfill(rows, rows[i]) && HasKey(rows, rows[i].orderId) {
      RefusedRow(before, i);
    }
    if !HasKey(rows, rows[i].orderId) && UniqueKeys(rows) {
      AcceptedRow(rows, i);
    }
  }

  class InvoiceDatabase {
    var rows: seq<Invoice>
    var hasColumn: bool
    var orderIndex: bool
    var keyIndex: bool

    function State(): Table
      reads this
    {
      Table(rows, hasColumn, orderIndex, keyIndex)
    }

    constructor (t: Table)
      ensures State() == t
    {
      rows, hasColumn, orderIndex, keyIndex := t.rows, t.hasColumn, t.orderIndex, t.keyIndex;
    }

    /** UPDATE ... SET sales_invoice_order_key = order_id: row by row, rolled back on a violation. */
    method UpdateKeys() returns (ok: bool)
      requires Enforced(State()) && hasColumn
      modifies `rows
      ensures ok ==> rows == Backfilled(old(rows)) && Enforced(State())
      ensures !ok ==> keyIndex && rows == old(rows) && !UniqueKeys(Backfilled(old(rows)))
    {
      var before := rows;
      hide Backfilled, UniqueKeys, ToBackfill, UniqueSalesOrders, Midway, HasKey, IsSales;
      UpdateBegins(before);
      for i := 0 to |rows|
        invariant |rows| == |before| && rows == Midway(before, i)
        invariant keyIndex ==> UniqueKeys(rows)
      {
        UpdateRow(before, i);
        if ToBackfill(rows, rows[i]) {
          if keyIndex && HasKey(rows, rows[i].orderId) {
            rows := before;
            return false;
          }
          rows := rows[i := rows[i].(key := Some(rows[i].orderId))];
        }
      }
      UpdateEnds(before);
      ok := true;
    }

    /** SELECT DISTINCT order_id of the sales invoices without a key. */
    method ListHistoricalDuplicateOrderIds() returns (orderIds: seq<string>)
      ensures forall i, j | 0 <= i < j < |orderIds| :: orderIds[i] != orderIds[j]
      ensures forall o :: o in orderIds <==> LeftUnkeyed(rows, o)
    {
      orderIds := [];
      for i := 0 to |rows|
        invariant forall p, q | 0 <= p < q < |orderIds| :: orderIds[p] != orderIds[q]
        invariant forall o :: o in orderIds <==> LeftUnkeyed(rows[..i], o)
      {
        assert rows[..i + 1] == rows[..i] + [rows[i]];
        ghost var was := orderIds;
        if IsSales(rows[i]) && rows[i].key == None && rows[i].orderId !in orderIds {
          orderIds := orderIds + [rows[i].orderId];
        }
        forall o ensures o in orderIds <==> LeftUnkeyed(rows[..i + 1], o) {
          OneMoreRow(rows[..i], rows[i], o);
        }
      }
      assert rows[..|rows|] == rows;
    }

    /**
     `ensureInvoiceAccountingColumns`, for the key column: add it, backfill it, list what
     is left, drop the old index, create the new one.
     */
    method EnsureInvoiceAccountingColumns() returns (r: Result<seq<string>, string>)
      requires Enforced(State())
      modifies this
      ensures Enforced(State())
      ensures r.Ok? <==> UniqueKeys(Backfilled(old(rows)))
      ensures r.Ok? ==> State() == Started(old(State()))
      ensures r.Err? ==> State() == FailedStart(old(State()))
      ensures r.Ok? ==> forall o :: o in r.value <==> LeftUnkeyed(rows, o)
    {
      hasColumn := true;
      var ok := UpdateKeys();
      if !ok {
        return Err("UNIQUE constraint failed: invoices.sales_invoice_order_key");
      }
      var duplicateGroups := ListHistoricalDuplicateOrderIds();
      orderIndex := false;
      if !keyIndex {
        if !UniqueKeys(rows) {
          return Err("UNIQUE constraint failed: invoices.sales_invoice_order_key");
        }
        keyIndex := true;
      }
      r := Ok(duplicateGroups);
    }
  }

  lemma OneMoreRow(rows: seq<Invoice>, r: Invoice, orderId: string)
    ensures LeftUnkeyed(rows + [r], orderId)
       <==> LeftUnkeyed(rows, orderId) || (IsSales(r) && r.key == None && r.orderId == orderId)
  {
    var more := rows + [r];
    if LeftUnkeyed(rows, orderId) {
      var i :| 0 <= i < |rows| && IsSales(rows[i]) && rows[i].key == None && rows[i].orderId == orderId;
      assert more[i] == rows[i];
    }
    assert more[|rows|] == r;
  }

  // ----- whole histories -----

  /**
   StartUp; one that is killed after some of its statements; a draft insert by the running
   application, whose key is its own order id for a sales invoice; an insert by code that
   knows no key column; the removal of a row.
   */
  datatype Step =
    | StartUp
    | Killed(after: nat)
    | Remove(row: nat)
    | InsertDraft(id: string, orderId: string, invoiceType: string)
    | InsertLegacy(id: string, orderId: string, invoiceType: string)

  predicate Violates(t: Table, r: Invoice) {
    || (t.keyIndex && r.key.Some? && exists i :: 0 <= i < |t.rows| && t.rows[i].key == r.key)
    || (t.orderIndex && IsSales(r)
        && exists i :: 0 <= i < |t.rows| && IsSales(t.rows[i]) && t.rows[i].orderId == r.orderId)
  }

  /** An insert that violates an index is refused and changes nothing. */
  function Inserted(t: Table, r: Invoice): Table {
    if Violates(t, r) then t else t.(rows := t.rows + [r])
  }

  function DraftRow(id: string, orderId: string, invoiceType: string): Invoice {
    Invoice(id, orderId, invoiceType, if invoiceType == SALES_INVOICE then Some(orderId) else None)
  }

  /** The application serves draft inserts only after a start-up has put the key index in place. */
  function After(t: Table, s: Step): Table {
    match s
    case StartUp => if UniqueKeys(Backfilled(t.rows)) then Started(t) else FailedStart(t)
    case Killed(n) =>
      (match StartUpTo(t, if n < |STATEMENTS| then n else |STATEMENTS|)
       case Ok(u) => u
       case Err(u) => u)
    case Remove(row) => if row < |t.rows| then t.(rows := t.rows[..row] + t.rows[row + 1..]) else t
    case InsertDraft(id, o, ty) => if t.keyIndex then Inserted(t, DraftRow(id, o, ty)) else t
    case InsertLegacy(id, o, ty) => Inserted(t, Invoice(id, o, ty, None))
  }

  function Run(t: Table, steps: seq<Step>): Table {
    if steps == [] then t else After(Run(t, steps[..|steps| - 1]), steps[|steps| - 1])
  }

  predicate Safe(t: Table) {
    Enforced(t) && OwnKeys(t.rows) && UniqueKeys(t.rows)
  }

  /** No key is set yet; whatever duplicates the history holds. */
  predicate Historical(t: Table) {
    Enforced(t) && forall i | 0 <= i < |t.rows| :: t.rows[i].key == None
  }

  /** On a safe table no statement is refused, and stopping anywhere leaves a safe table with the same work to do. */
  lemma {:induction false} StatementsAreSafe(t: Table, n: nat)
    requires Safe(t) && n <= |STATEMENTS|
    ensures StartUpTo(t, n).Ok?
    ensures var u := StartUpTo(t, n).value;
      && Safe(u) && (u.rows == t.rows || u.rows == Backfilled(t.rows))
      && Backfilled(u.rows) == Backfilled(t.rows) && UniqueKeys(Backfilled(t.rows))
      && (n >= 2 ==> u.rows == Backfilled(t.rows)) && (n >= 1 ==> u.hasColumn)
  {
    BackfillKeepsKeysUnique(t.rows);
    BackfillIsIdempotent(t.rows);
    BackfillKeepsOrders(t.rows);
    if n > 0 {
      StatementsAreSafe(t, n - 1);
    }
  }

  lemma BackfillKeepsOrders(rows: seq<Invoice>)
    ensures UniqueSalesOrders(rows) ==> UniqueSalesOrders(Backfilled(rows))
  {
  }

  lemma RemovalIsSafe(t: Table, row: nat)
    requires Safe(t) && row < |t.rows|
    ensures Safe(t.(rows := t.rows[..row] + t.rows[row + 1..]))
  {
    var rows := t.rows[..row] + t.rows[row + 1..];
    assert forall i | 0 <= i < |rows| :: rows[i] == t.rows[if i < row then i else i + 1];
  }

  /** A start-up after one that was killed anywhere ends as if nothing had happened. */
  lemma KilledStartUpIsMadeGood(t: Table, n: nat)
    requires Safe(t)
    ensures After(After(t, Killed(n)), StartUp) == After(t, StartUp) == Started(t)
  {
    StatementsAreSafe(t, if n < |STATEMENTS| then n else |STATEMENTS|);
    StepIsSafe(t, StartUp);
  }

  /**
   The histories meant: no key set, the key index only with its column, and the order index only
   over distinct orders.
   */
  lemma HistoricalIff(t: Table)
    ensures Historical(t) <==>
      && (forall i | 0 <= i < |t.rows| :: t.rows[i].key == None)
      && (t.keyIndex ==> t.hasColumn)
      && (t.orderIndex ==> forall i, j | 0 <= i < j < |t.rows| ::
            t.rows[i].invoiceType == "SalesInvoice" && t.rows[j].invoiceType == "SalesInvoice" ==>
              t.rows[i].orderId != t.rows[j].orderId)
  {
  }

  lemma StepIsSafe(t: Table, s: Step)
    requires Safe(t)
    ensures Safe(After(t, s))
    ensures s.StartUp? ==> After(t, s) == Started(t)
  {
    match s
    case StartUp => BackfillKeepsKeysUnique(t.rows);
    case Killed(n) => StatementsAreSafe(t, if n < |STATEMENTS| then n else |STATEMENTS|);
    case Remove(row) =>
      if row < |t.rows| {
        RemovalIsSafe(t, row);
      }
    case InsertDraft(_, _, _) =>
    case InsertLegacy(_, _, _) =>
  }

  /**
   From any history without keys, through any start-ups, killed or not, inserts and removals:
   keys stay unique and their own, and every start-up succeeds.
   */
  lemma {:induction false} EveryStartUpSucceeds(t: Table, steps: seq<Step>)
    requires Historical(t)
    ensures Safe(Run(t, steps))
    ensures UniqueKeys(Backfilled(Run(t, steps).rows))
    ensures forall i | 0 <= i < |steps| && steps[i].StartUp? :: Run(t, steps[..i + 1]) == Started(Run(t, steps[..i]))
    decreases |steps|
  {
    if steps != [] {
      var n := |steps| - 1;
      var before := steps[..n];
      EveryStartUpSucceeds(t, before);
      StepIsSafe(Run(t, before), steps[n]);
      forall i | 0 <= i < |steps| && steps[i].StartUp? ensures Run(t, steps[..i + 1]) == Started(Run(t, steps[..i])) {
        assert steps[..i + 1][..i] == steps[..i];
        if i < n {
          assert before[..i + 1] == steps[..i + 1] && before[..i] == steps[..i];
        }
      }
    }
    BackfillKeepsKeysUnique(Run(t, steps).rows);
  }

  /** Where row `i` is after the run, if it is still there. */
  function Position(t: Table, steps: seq<Step>, i: nat): Option<nat>
    decreases |steps|
  {
    if steps == [] then Some(i) else
      var n := |steps| - 1;
      var before, last := Position(t, steps[..n], i), steps[n];
      if before.Some? && last.Remove? && last.row < |Run(t, steps[..n]).rows| then
        if before.value == last.row then None
        else Some(if last.row < before.value then before.value - 1 else before.value)
      else before
  }

  /** Row `b` is row `a`, or that row with its empty key filled. */
  predicate Kept(a: Invoice, b: Invoice) {
    b == a || (a.key == None && b == a.(key := b.key))
  }

  lemma StepKeepsRows(t: Table, s: Step, i: nat)
    requires i < |t.rows| && !s.Remove?
    ensures i < |After(t, s).rows| && Kept(t.rows[i], After(t, s).rows[i])
  {
    if s.Killed? {
      StatementsKeepRows(t, if s.after < |STATEMENTS| then s.after else |STATEMENTS|, i);
    }
  }

  lemma {:induction false} StatementsKeepRows(t: Table, n: nat, i: nat)
    requires n <= |STATEMENTS| && i < |t.rows|
    ensures var u := (match StartUpTo(t, n) case Ok(u) => u case Err(u) => u);
      |u.rows| == |t.rows| && Kept(t.rows[i], u.rows[i])
  {
    if n > 0 {
      StatementsKeepRows(t, n - 1, i);
    }
  }

  /**
   Nothing but its removal takes a row away, and nothing alters one but to fill an empty key: a set
   key never changes.
   */
  lemma {:induction false} SetKeysNeverChange(t: Table, steps: seq<Step>, i: nat)
    requires i < |t.rows|
    ensures var p := Position(t, steps, i);
      p.Some? ==> p.value < |Run(t, steps).rows| && Kept(t.rows[i], Run(t, steps).rows[p.value])
    decreases |steps|
  {
    if steps != [] {
      var n := |steps| - 1;
      var before, p := Run(t, steps[..n]), Position(t, steps[..n], i);
      SetKeysNeverChange(t, steps[..n], i);
      if p.Some? && !steps[n].Remove? {
        StepKeepsRows(before, steps[n], p.value);
      }
    }
  }

  /** A start-up right after a start-up changes nothing. */
  lemma RepeatedStartUpIsNoOp(t: Table)
    requires Safe(t)
    ensures After(After(t, StartUp), StartUp) == After(t, StartUp)
  {
    StepIsSafe(t, StartUp);
    StepIsSafe(Started(t), StartUp);
    BackfillIsIdempotent(t.rows);
  }

  /**
   What the report lists after any history that ends in a start-up: exactly the orders
   with a sales invoice left without a key, and each of them has at least two.
   */
  lemma ReportAfterRun(t: Table, steps: seq<Step>, orderId: string)
    requires Historical(t)
    ensures var r := Run(t, steps + [StartUp]).rows;
      LeftUnkeyed(r, orderId) ==> SalesCount(r, orderId) >= 2
    ensures var r := Run(t, steps + [StartUp]).rows;
      forall i | 0 <= i < |r| && IsSales(r[i]) && r[i].orderId == orderId && SalesCount(r, orderId) == 1 ::
        r[i].key == Some(orderId)
  {
    var before := Run(t, steps);
    EveryStartUpSucceeds(t, steps);
    StepIsSafe(before, StartUp);
    assert (steps + [StartUp])[..|steps|] == steps;
    ReportIsExact(before.rows, orderId);
    var r := Backfilled(before.rows);
    forall i | 0 <= i < |r| && IsSales(r[i]) && r[i].orderId == orderId && SalesCount(r, orderId) == 1
      ensures r[i].key == Some(orderId)
    {
      assert r[i].key == None ==> LeftUnkeyed(r, orderId);
    }
  }

  // ----- what the indexes let through -----

  lemma {:induction false} CountOfOne(rows: seq<Invoice>, i: nat)
    requires i < |rows| && IsSales(rows[i])
    requires forall j | 0 <= j < |rows| && j != i :: !(IsSales(rows[j]) && rows[j].orderId == rows[i].orderId)
    ensures SalesCount(rows, rows[i].orderId) == 1
    decreases |rows|
  {
    var n := |rows| - 1;
    if i < n {
      CountOfOne(rows[..n], i);
    } else {
      CountOfNone(rows[..n], rows[i].orderId);
    }
  }

  lemma {:induction false} CountOfNone(rows: seq<Invoice>, orderId: string)
    requires forall j | 0 <= j < |rows| :: !(IsSales(rows[j]) && rows[j].orderId == orderId)
    ensures SalesCount(rows, orderId) == 0
    decreases |rows|
  {
    if rows != [] {
      CountOfNone(rows[..|rows| - 1], orderId);
    }
  }

  /**
   A row is given its order id as key exactly when it is a sales invoice without key and the
   only one of its order; all else stays.
   */
  lemma BackfillIs(rows: seq<Invoice>, i: nat)
    requires i < |rows|
    ensures Backfilled(rows)[i] ==
      if rows[i].invoiceType == "SalesInvoice" && rows[i].key == None
         && forall j | 0 <= j < |rows| && j != i ::
              !(rows[j].invoiceType == "SalesInvoice" && rows[j].orderId == rows[i].orderId)
      then Invoice(rows[i].id, rows[i].orderId, rows[i].invoiceType, Some(rows[i].orderId))
      else rows[i]
  {
    if IsSales(rows[i]) {
      if j :| 0 <= j < |rows| && j != i && IsSales(rows[j]) && rows[j].orderId == rows[i].orderId {
        if i < j {
          CountAtLeastTwo(rows, i, j);
        } else {
          CountAtLeastTwo(rows, j, i);
        }
      } else {
        CountOfOne(rows, i);
      }
    }
  }

  /** Some row holds this key. */
  predicate KeyTaken(rows: seq<Invoice>, key: string) {
    exists i :: 0 <= i < |rows| && rows[i].key == Some(key)
  }

  /**
   After any history that ends in a start-up the key index alone is in force: a draft sales
   invoice of an order that has one with its key is refused, any other draft is taken with
   its order id as key, other invoices are taken without one, and an insert that knows no
   keys is never refused, however many sales invoices its order has.
   */
  lemma IndexesAfterStartUp(t: Table, steps: seq<Step>, id: string, orderId: string, invoiceType: string)
    requires Historical(t)
    ensures var u := Run(t, steps + [StartUp]);
      && After(u, InsertDraft(id, orderId, "SalesInvoice")).rows
         == u.rows + (if KeyTaken(u.rows, orderId) then [] else [Invoice(id, orderId, "SalesInvoice", Some(orderId))])
      && (invoiceType != "SalesInvoice" ==>
            After(u, InsertDraft(id, orderId, invoiceType)).rows == u.rows + [Invoice(id, orderId, invoiceType, None)])
      && After(u, InsertLegacy(id, orderId, invoiceType)).rows == u.rows + [Invoice(id, orderId, invoiceType, None)]
  {
    EveryStartUpSucceeds(t, steps);
    StepIsSafe(Run(t, steps), StartUp);
    assert (steps + [StartUp])[..|steps|] == steps;
    hide Backfilled;
  }

  /** While the old order index is still there, it refuses a second sales invoice of an order, and nothing else does. */
  lemma OldIndexRefuses(t: Table, id: string, orderId: string, invoiceType: string)
    requires !t.keyIndex
    ensures After(t, InsertLegacy(id, orderId, invoiceType)).rows
         == if t.orderIndex && invoiceType == "SalesInvoice"
               && exists i ::
                 0 <= i < |t.rows| && t.rows[i].invoiceType == "SalesInvoice" && t.rows[i].orderId == orderId
            then t.rows
            else t.rows + [Invoice(id, orderId, invoiceType, None)]
    ensures After(t, InsertDraft(id, orderId, invoiceType)) == t
  {
  }
}
