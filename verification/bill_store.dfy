/** `insertBill`, `deleteBill` and `updateBill` over the two bill tables: the header
    table APP.ventas, keyed by a generated id, and the detail table APP.ventas_detalle,
    whose rows point at their header and are removed with it (ON DELETE CASCADE). */
module BillStore {
  import opened Records

  /** A row of APP.ventas without its key: cliente, modo_pago, cuando, total. */
  datatype HeadRecord = HeadRecord(customer: string, payMode: int, when: int, total: Decimal)

  /** A row of APP.ventas_detalle: id_venta, and the line's cantidad, producto, precio. */
  datatype DetailRecord = DetailRecord(billId: int, line: BillLine)

  /** The detail rows that `insertBill` writes for a bill with id `id`, one per line. */
  function Tagged(id: int, lines: seq<BillLine>): (details: seq<DetailRecord>)
    ensures |details| == |lines|
    ensures forall i :: 0 <= i < |lines| ==> details[i] == DetailRecord(id, lines[i])
  {
    if lines == [] then [] else Tagged(id, lines[..|lines| - 1]) + [DetailRecord(id, lines[|lines| - 1])]
  }

  /** The detail table once the database has cascaded the deletion of header `id`. */
  function Cascade(details: seq<DetailRecord>, id: int): (kept: seq<DetailRecord>)
  {
    if details == [] then []
    else Cascade(details[..|details| - 1], id)
         + (if details[|details| - 1].billId == id then [] else [details[|details| - 1]])
  }

  /** The lines stored for bill `id`, in the order they were written. */
  function LinesOf(details: seq<DetailRecord>, id: int): (lines: seq<BillLine>)
  {
    if details == [] then []
    else LinesOf(details[..|details| - 1], id)
         + (if details[|details| - 1].billId == id then [details[|details| - 1].line] else [])
  }

  lemma LinesOfAppend(details: seq<DetailRecord>, d: DetailRecord, id: int)
    ensures LinesOf(details + [d], id) == LinesOf(details, id) + (if d.billId == id then [d.line] else [])
  {
    assert (details + [d])[..|details|] == details;
  }

  /** The cascade keeps exactly the detail rows of other bills, in their order. */
  lemma {:induction false} CascadeKeepsOthers(details: seq<DetailRecord>, id: int)
    ensures forall d :: d in Cascade(details, id) <==> d in details && d.billId != id
    ensures forall k :: LinesOf(Cascade(details, id), k) == if k == id then [] else LinesOf(details, k)
  {
    if details != [] {
      var n := |details|;
      var front := details[..n - 1];
      var d := details[n - 1];
      assert front + [d] == details;
      CascadeKeepsOthers(front, id);
      var kept := Cascade(front, id);
      assert Cascade(details, id) == kept + (if d.billId == id then [] else [d]);
      if d.billId == id {
        assert kept + [] == kept;
      }
      forall k
        ensures LinesOf(Cascade(details, id), k) == if k == id then [] else LinesOf(details, k)
      {
        LinesOfAppend(front, d, k);
        if d.billId != id {
          LinesOfAppend(Cascade(front, id), d, k);
        }
      }
    }
  }

  /** Writing the rows of one bill adds its lines, in order, to that bill and to no other. */
  lemma {:induction false} LinesOfTagged(details: seq<DetailRecord>, id: int, lines: seq<BillLine>, k: int)
    ensures LinesOf(details + Tagged(id, lines), k) == LinesOf(details, k) + (if k == id then lines else [])
  {
    if lines == [] {
      assert details + Tagged(id, lines) == details;
    } else {
      var m := |lines|;
      LinesOfTagged(details, id, lines[..m - 1], k);
      assert details + Tagged(id, lines) == (details + Tagged(id, lines[..m - 1])) + [DetailRecord(id, lines[m - 1])];
      LinesOfAppend(details + Tagged(id, lines[..m - 1]), DetailRecord(id, lines[m - 1]), k);
      assert lines[..m - 1] + [lines[m - 1]] == lines;
    }
  }

  /** A bill with no detail rows has no lines. */
  lemma {:induction false} LinesOfAbsent(details: seq<DetailRecord>, id: int)
    requires forall i :: 0 <= i < |details| ==> details[i].billId != id
    ensures LinesOf(details, id) == []
  {
    if details != [] {
      LinesOfAbsent(details[..|details| - 1], id);
    }
  }

  /** The bill with key `id` as the two tables hold it, if its header exists. */
  function LoadFrom(heads: map<int, HeadRecord>, details: seq<DetailRecord>, id: int): (bill: Option<Bill>)
  {
    if id in heads
    then Some(Bill(Header(id, heads[id].customer, heads[id].payMode, heads[id].when), LinesOf(details, id)))
    else None
  }

  /** After writing a header under a fresh key and one detail row per line, that key loads
      back as exactly those header fields and lines, every other key loads as before, and
      every detail row still points at a header. */
  lemma LoadAfterInsert(heads: map<int, HeadRecord>, details: seq<DetailRecord>, key: int,
                        head: HeadRecord, lines: seq<BillLine>)
    requires key !in heads
    requires forall i :: 0 <= i < |details| ==> details[i].billId in heads
    ensures LoadFrom(heads[key := head], details + Tagged(key, lines), key)
            == Some(Bill(Header(key, head.customer, head.payMode, head.when), lines))
    ensures forall id :: id != key ==>
              LoadFrom(heads[key := head], details + Tagged(key, lines), id) == LoadFrom(heads, details, id)
    ensures var all := details + Tagged(key, lines);
      forall i :: 0 <= i < |all| ==> all[i].billId in heads[key := head]
  {
    LinesOfAbsent(details, key);
    LinesOfTagged(details, key, lines, key);
    assert [] + lines == lines;
    LoadOthersAfterInsert(heads, details, key, head, lines);
    TaggedPointsAtHeads(heads, details, key, head, lines);
  }

  lemma LoadOthersAfterInsert(heads: map<int, HeadRecord>, details: seq<DetailRecord>, key: int,
                              head: HeadRecord, lines: seq<BillLine>)
    ensures forall id :: id != key ==>
              LoadFrom(heads[key := head], details + Tagged(key, lines), id) == LoadFrom(heads, details, id)
  {
    forall id | id != key
      ensures LoadFrom(heads[key := head], details + Tagged(key, lines), id) == LoadFrom(heads, details, id)
    {
      LinesOfTagged(details, key, lines, id);
      assert LinesOf(details, id) + [] == LinesOf(details, id);
    }
  }

  lemma TaggedPointsAtHeads(heads: map<int, HeadRecord>, details: seq<DetailRecord>, key: int,
                            head: HeadRecord, lines: seq<BillLine>)
    requires forall i :: 0 <= i < |details| ==> details[i].billId in heads
    ensures var all := details + Tagged(key, lines);
      forall i :: 0 <= i < |all| ==> all[i].billId in heads[key := head]
  {
    var all := details + Tagged(key, lines);
    forall i | 0 <= i < |all|
      ensures all[i].billId in heads[key := head]
    {
      if i >= |details| {
        assert all[i] == Tagged(key, lines)[i - |details|];
      }
    }
  }

  /** After deleting header `id` and cascading, `id` no longer loads and every other key
      loads as before. */
  lemma LoadAfterDelete(heads: map<int, HeadRecord>, details: seq<DetailRecord>, id: int)
    ensures LoadFrom(heads - {id}, Cascade(details, id), id) == None
    ensures forall other :: other != id ==>
              LoadFrom(heads - {id}, Cascade(details, id), other) == LoadFrom(heads, details, other)
  {
    CascadeKeepsOthers(details, id);
  }

  class Store {
    var heads: map<int, HeadRecord>
    var details: seq<DetailRecord>
    /** The next key the identity column of APP.ventas generates. */
    var nextKey: int

    /** Generated keys start at 1 and stay below `nextKey`, and every detail row points at
        a header that exists. */
    ghost predicate Valid()
      reads this
    {
      && 1 <= nextKey
      && (forall id :: id in heads ==> 1 <= id < nextKey)
      && (forall i :: 0 <= i < |details| ==> details[i].billId in heads)
    }

    /** The bill with key `id` as the tables hold it, if there is one. */
    function Load(id: int): (bill: Option<Bill>)
      reads this
    {
      LoadFrom(heads, details, id)
    }

    constructor ()
      ensures Valid()
      ensures heads == map[] && details == [] && nextKey == 1
    {
      heads := map[];
      details := [];
      nextKey := 1;
    }

    /** `insertBill`: writes the header with the current time `now` and the bill's total,
        sets the bill's id to the generated key, and writes one detail row per line. */
    method InsertBill(bill: Bill, total: Decimal, now: int) returns (saved: Bill)
      requires Valid()
      modifies this
      ensures Valid()
      ensures saved == Bill(bill.head.(id := old(nextKey)), bill.lines)
      ensures saved.head.id !in old(heads)
      ensures nextKey == old(nextKey) + 1
      ensures heads == old(heads)[saved.head.id := HeadRecord(bill.head.customer, bill.head.payMode, now, total)]
      ensures details == old(details) + Tagged(saved.head.id, bill.lines)
      ensures Load(saved.head.id) == Some(Bill(saved.head.(when := now), bill.lines))
      ensures forall id :: id != saved.head.id ==> Load(id) == old(Load(id))
    {
      var key := nextKey;
      heads := heads[key := HeadRecord(bill.head.customer, bill.head.payMode, now, total)];
      nextKey := nextKey + 1;
      saved := Bill(bill.head.(id := key), bill.lines);
      for i := 0 to |bill.lines|
        invariant heads == old(heads)[key := HeadRecord(bill.head.customer, bill.head.payMode, now, total)]
        invariant nextKey == key + 1
        invariant details == old(details) + Tagged(key, bill.lines[..i])
      {
        assert bill.lines[..i + 1][..i] == bill.lines[..i];
        details := details + [DetailRecord(key, bill.lines[i])];
      }
      assert bill.lines[..|bill.lines|] == bill.lines;
      LoadAfterInsert(old(heads), old(details), key, HeadRecord(bill.head.customer, bill.head.payMode, now, total), bill.lines);
    }

    /** `deleteBill`: removes the header with the bill's id; the database drops its detail rows. */
    method DeleteBill(bill: Bill)
      requires Valid()
      modifies this
      ensures Valid()
      ensures heads == old(heads) - {bill.head.id}
      ensures details == Cascade(old(details), bill.head.id)
      ensures nextKey == old(nextKey)
      ensures Load(bill.head.id) == None
      ensures forall id :: id != bill.head.id ==> Load(id) == old(Load(id))
    {
      CascadeKeepsOthers(details, bill.head.id);
      LoadAfterDelete(heads, details, bill.head.id);
      heads := heads - {bill.head.id};
      details := Cascade(details, bill.head.id);
      forall i | 0 <= i < |details|
        ensures details[i].billId in heads
      {
        assert details[i] in Cascade(old(details), bill.head.id);
      }
    }

    /** `updateBill`: `deleteBill` followed by `insertBill`, so the bill comes back under a
        new key and nothing is left under its old one. */
    method UpdateBill(bill: Bill, total: Decimal, now: int) returns (saved: Bill)
      requires Valid()
      modifies this
      ensures Valid()
      ensures saved == Bill(bill.head.(id := old(nextKey)), bill.lines)
      ensures saved.head.id !in old(heads)
      ensures nextKey == old(nextKey) + 1
      ensures bill.head.id in old(heads) ==> bill.head.id != saved.head.id && Load(bill.head.id) == None
      ensures heads == (old(heads) - {bill.head.id})[saved.head.id := HeadRecord(bill.head.customer, bill.head.payMode, now, total)]
      ensures details == Cascade(old(details), bill.head.id) + Tagged(saved.head.id, bill.lines)
      ensures Load(saved.head.id) == Some(Bill(saved.head.(when := now), bill.lines))
      ensures forall id :: id != saved.head.id && id != bill.head.id ==> Load(id) == old(Load(id))
    {
      DeleteBill(bill);
      saved := InsertBill(bill, total, now);
    }
  }
}
