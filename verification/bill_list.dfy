/** `resultSetToBillsList` and its two callers: the query text sent to the database,
    the optional DELETE of the matching bills, and the folding of the joined
    header/detail rows into bills. */
module BillList {
  import opened Records
  import Conditions

  const JoinQuery: string :=
    "SELECT * FROM APP.VENTAS, APP.VENTAS_DETALLE"
    + "   WHERE (APP.VENTAS.ID_VENTA = APP.VENTAS_DETALLE.ID_VENTA)"
    + "     AND ("

  const DeleteQuery: string := "DELETE FROM APP.VENTAS WHERE "

  const CustomerClause: string := "APP.ventas.cliente LIKE %"

  /** The text handed to `executeQuery`: the join query with the condition inside
      `AND ( ... )`, and then the condition once more, since the source executes
      `sQuery + sCondition`. */
  function QueryText(condition: string): (query: string)
  {
    JoinQuery + condition + ")" + condition
  }

  /** Reads a query text back into the condition it was made from, if it has that shape. */
  function ConditionOfQuery(query: string): (condition: Option<string>)
  {
    if |query| < |JoinQuery| + 1 || query[..|JoinQuery|] != JoinQuery
       || (|query| - |JoinQuery| - 1) % 2 != 0
    then None
    else
      var n := (|query| - |JoinQuery| - 1) / 2;
      var rest := query[|JoinQuery|..];
      if rest[n] == ')' && rest[..n] == rest[n + 1..] then Some(rest[..n]) else None
  }

  /** The query text is exactly the join prefix, the condition, a closing parenthesis and
      the condition again: a text reads back to `c` if and only if it is `QueryText(c)`. */
  lemma QueryTextIff(query: string, condition: string)
    ensures ConditionOfQuery(query) == Some(condition) <==> query == QueryText(condition)
  {
    var q := QueryText(condition);
    var rest := q[|JoinQuery|..];
    assert rest == condition + ")" + condition;
    assert rest[|condition|] == ')';
    assert rest[..|condition|] == condition;
    assert rest[|condition| + 1..] == condition;
    assert q[..|JoinQuery|] == JoinQuery;
    if ConditionOfQuery(query) == Some(condition) {
      var n := (|query| - |JoinQuery| - 1) / 2;
      var r := query[|JoinQuery|..];
      assert r == r[..n] + [r[n]] + r[n + 1..];
      assert query == query[..|JoinQuery|] + r;
    }
  }

  /** A non-empty condition does not end the executed text: the text is the well-formed
      query `JoinQuery + c + ")"` with `c` appended after the closing parenthesis. */
  lemma QueryRepeatsCondition(condition: string)
    requires condition != ""
    ensures var q := QueryText(condition);
      q[..|JoinQuery| + |condition| + 1] == JoinQuery + condition + ")"
      && q[|JoinQuery| + |condition| + 1..] == condition
      && q != JoinQuery + condition + ")"
  {
    var q := QueryText(condition);
    assert q == (JoinQuery + condition + ")") + condition;
  }

  /** The DELETE of the bills that match the condition. */
  function DeleteText(condition: string): (command: string)
  {
    DeleteQuery + condition
  }

  /** The condition `findBillsByCustomer` builds around the customer pattern. */
  function CustomerCondition(pattern: string): (condition: string)
  {
    CustomerClause + pattern + "%"
  }

  // ---------------------------------------------------------------------------
  // Grouping the joined rows into bills

  /** The id the loop compares against after consuming `rows`: the last row's id, or the initial -1. */
  function PrevId(rows: seq<BillRow>): (id: int)
  {
    if rows == [] then -1 else rows[|rows| - 1].head.id
  }

  /** One turn of the loop: open a new bill when the id changed, then add the row's line
      to the current (last) bill; with no current bill the source dereferences null. */
  function AddRow(bills: seq<Bill>, prevId: int, row: BillRow): (r: Result<seq<Bill>>)
  {
    var open := if prevId != row.head.id then bills + [Bill(row.head, [])] else bills;
    if open == [] then Err(NullBill)
    else
      var last := |open| - 1;
      Ok(open[last := open[last].(lines := open[last].lines + [row.line])])
  }

  /** The bills the loop builds from `rows`, or the fault it stops with. */
  function GroupRows(rows: seq<BillRow>): (r: Result<seq<Bill>>)
  {
    if rows == [] then Ok([])
    else
      var prefix := rows[..|rows| - 1];
      match GroupRows(prefix)
      case Err(f) => Err(f)
      case Ok(bills) => AddRow(bills, PrevId(prefix), rows[|rows| - 1])
  }

  /** The `while (rs.next())` loop of `resultSetToBillsList`. */
  method GroupBills(rows: seq<BillRow>) returns (r: Result<seq<Bill>>)
    ensures r == GroupRows(rows)
  {
    var bills: seq<Bill> := [];
    var billId := -1;
    var i := 0;
    while i < |rows|
      invariant 0 <= i <= |rows|
      invariant GroupRows(rows[..i]) == Ok(bills)
      invariant billId == PrevId(rows[..i])
      invariant i > 0 ==> bills != []
    {
      assert rows[..i + 1][..i] == rows[..i];
      if billId != rows[i].head.id {
        billId := rows[i].head.id;
        bills := bills + [Bill(rows[i].head, [])];
      }
      if bills == [] {
        GroupFailsIff(rows);
        return Err(NullBill);
      }
      var last := |bills| - 1;
      bills := bills[last := bills[last].(lines := bills[last].lines + [rows[i].line])];
      i := i + 1;
    }
    assert rows[..i] == rows;
    r := Ok(bills);
  }

  /** The grouping fails exactly when the first row carries the loop's initial id -1. */
  lemma {:induction false} GroupFailsIff(rows: seq<BillRow>)
    ensures GroupRows(rows).Err? <==> |rows| > 0 && rows[0].head.id == -1
    ensures GroupRows(rows).Err? ==> GroupRows(rows) == Err(NullBill)
    ensures GroupRows(rows).Ok? ==> (GroupRows(rows).value == [] <==> rows == [])
  {
    if rows != [] {
      var prefix := rows[..|rows| - 1];
      GroupFailsIff(prefix);
      if prefix != [] {
        assert prefix[0] == rows[0];
      }
    }
  }

  // ---------------------------------------------------------------------------
  // What the grouping promises

  function AllLines(bills: seq<Bill>): (lines: seq<BillLine>)
  {
    if bills == [] then [] else AllLines(bills[..|bills| - 1]) + bills[|bills| - 1].lines
  }

  function RowLines(rows: seq<BillRow>): (lines: seq<BillLine>)
  {
    if rows == [] then [] else RowLines(rows[..|rows| - 1]) + [rows[|rows| - 1].line]
  }

  /** Row `i` starts a run: it is the first row or its id differs from the previous row's. */
  predicate StartsRun(rows: seq<BillRow>, i: int)
    requires 0 <= i < |rows|
  {
    i == 0 || rows[i].head.id != rows[i - 1].head.id
  }

  /** The number of maximal runs of equal ids in `rows`. */
  function RunCount(rows: seq<BillRow>): (count: nat)
  {
    if rows == [] then 0
    else RunCount(rows[..|rows| - 1]) + (if StartsRun(rows, |rows| - 1) then 1 else 0)
  }

  /** Bills that are non-empty, whose neighbours have different ids, and whose first id is not -1. */
  predicate WellGrouped(bills: seq<Bill>)
  {
    && (forall k :: 0 <= k < |bills| ==> bills[k].lines != [])
    && (forall k :: 0 < k < |bills| ==> bills[k - 1].head.id != bills[k].head.id)
    && (bills != [] ==> bills[0].head.id != -1)
  }

  lemma AllLinesAppend(bills: seq<Bill>, b: Bill)
    ensures AllLines(bills + [b]) == AllLines(bills) + b.lines
  {
    assert (bills + [b])[..|bills|] == bills;
  }

  lemma RowLinesAppend(rows: seq<BillRow>, r: BillRow)
    ensures RowLines(rows + [r]) == RowLines(rows) + [r.line]
  {
    assert (rows + [r])[..|rows|] == rows;
  }

  /** The effect of one `AddRow` on the bill list, spelled out. */
  lemma AddRowShape(bills: seq<Bill>, prevId: int, row: BillRow)
    requires AddRow(bills, prevId, row).Ok?
    ensures var r := AddRow(bills, prevId, row).value;
      if prevId != row.head.id then r == bills + [Bill(row.head, [row.line])]
      else bills != [] && r == bills[..|bills| - 1] + [bills[|bills| - 1].(lines := bills[|bills| - 1].lines + [row.line])]
  {
    var r := AddRow(bills, prevId, row).value;
    if prevId != row.head.id {
      var open := bills + [Bill(row.head, [])];
      assert [] + [row.line] == [row.line];
      assert open[|bills| := Bill(row.head, [row.line])] == bills + [Bill(row.head, [row.line])];
    } else {
      assert r == bills[..|bills| - 1] + [bills[|bills| - 1].(lines := bills[|bills| - 1].lines + [row.line])];
    }
  }

  /** Every row lands in exactly one bill line, in row order. */
  lemma {:induction false} GroupedLines(rows: seq<BillRow>)
    requires GroupRows(rows).Ok?
    ensures AllLines(GroupRows(rows).value) == RowLines(rows)
  {
    if rows != [] {
      var n := |rows|;
      var prefix := rows[..n - 1];
      var row := rows[n - 1];
      assert prefix + [row] == rows;
      GroupFailsIff(rows);
      GroupFailsIff(prefix);
      GroupedLines(prefix);
      var bs := GroupRows(prefix).value;
      var bills := GroupRows(rows).value;
      AddRowShape(bs, PrevId(prefix), row);
      RowLinesAppend(prefix, row);
      if PrevId(prefix) != row.head.id {
        AllLinesAppend(bs, Bill(row.head, [row.line]));
      } else {
        var m := |bs|;
        assert bs == bs[..m - 1] + [bs[m - 1]];
        AllLinesAppend(bs[..m - 1], bs[m - 1]);
        AllLinesAppend(bs[..m - 1], bills[m - 1]);
      }
    }
  }

  /** Every bill has a line, neighbouring bills have different ids, the first id is not -1,
      and the last bill carries the last row's id. */
  /** One turn of the loop keeps the bills well grouped and leaves the row's id on the last bill. */
  lemma {:induction false} WellGroupedStep(bs: seq<Bill>, prevId: int, row: BillRow)
    requires AddRow(bs, prevId, row).Ok?
    requires WellGrouped(bs)
    requires bs == [] ==> prevId == -1
    requires bs != [] ==> bs[|bs| - 1].head.id == prevId
    ensures var r := AddRow(bs, prevId, row).value;
      && WellGrouped(r)
      && r != []
      && r[|r| - 1].head.id == row.head.id
  {
    AddRowShape(bs, prevId, row);
  }

  lemma {:induction false} GroupedWell(rows: seq<BillRow>)
    requires GroupRows(rows).Ok?
    ensures WellGrouped(GroupRows(rows).value)
    ensures rows != [] ==>
              && GroupRows(rows).value != []
              && GroupRows(rows).value[|GroupRows(rows).value| - 1].head.id == rows[|rows| - 1].head.id
  {
    if rows != [] {
      var n := |rows|;
      var prefix := rows[..n - 1];
      var row := rows[n - 1];
      GroupFailsIff(rows);
      GroupFailsIff(prefix);
      GroupedWell(prefix);
      WellGroupedStep(GroupRows(prefix).value, PrevId(prefix), row);
    }
  }

  /** The headers of the bills, in order. */
  function Heads(bills: seq<Bill>): (heads: seq<Header>)
    ensures |heads| == |bills|
  {
    if bills == [] then [] else Heads(bills[..|bills| - 1]) + [bills[|bills| - 1].head]
  }

  /** The header of the first row of each maximal run of equal ids, in row order. */
  function RunHeads(rows: seq<BillRow>): (heads: seq<Header>)
  {
    if rows == [] then []
    else RunHeads(rows[..|rows| - 1]) + (if StartsRun(rows, |rows| - 1) then [rows[|rows| - 1].head] else [])
  }

  lemma HeadsAppend(bills: seq<Bill>, b: Bill)
    ensures Heads(bills + [b]) == Heads(bills) + [b.head]
  {
    assert (bills + [b])[..|bills|] == bills;
  }

  /** Adding a line to the last bill keeps the headers. */
  lemma HeadsExtendLast(front: seq<Bill>, last: Bill, l: BillLine)
    ensures Heads(front + [last.(lines := last.lines + [l])]) == Heads(front + [last])
  {
    HeadsAppend(front, last);
    HeadsAppend(front, last.(lines := last.lines + [l]));
  }

  /** On rows the loop accepts, the last row begins a run exactly when the loop opens a bill for it. */
  lemma StartsRunIff(rows: seq<BillRow>)
    requires GroupRows(rows).Ok? && rows != []
    ensures StartsRun(rows, |rows| - 1) <==> PrevId(rows[..|rows| - 1]) != rows[|rows| - 1].head.id
  {
    var n := |rows|;
    GroupFailsIff(rows);
    if n > 1 {
      assert rows[..n - 1][n - 2] == rows[n - 2];
    }
  }

  /** One bill per maximal run of equal ids (not per id: rows of one id split by another
      id give several bills): a new bill begins exactly where a run begins, and it carries
      the header of the row that begins the run. */
  lemma {:induction false} GroupedRuns(rows: seq<BillRow>)
    requires GroupRows(rows).Ok?
    ensures |GroupRows(rows).value| == RunCount(rows)
    ensures Heads(GroupRows(rows).value) == RunHeads(rows)
  {
    if rows != [] {
      var n := |rows|;
      var prefix := rows[..n - 1];
      var row := rows[n - 1];
      GroupFailsIff(rows);
      GroupFailsIff(prefix);
      GroupedRuns(prefix);
      StartsRunIff(rows);
      var bs := GroupRows(prefix).value;
      AddRowShape(bs, PrevId(prefix), row);
      if PrevId(prefix) != row.head.id {
        HeadsAppend(bs, Bill(row.head, [row.line]));
      } else {
        var m := |bs|;
        assert bs[..m - 1] + [bs[m - 1]] == bs;
        HeadsExtendLast(bs[..m - 1], bs[m - 1], row.line);
      }
    }
  }

  /** The bill query has no ORDER BY, so the rows of one bill may be split by another
      bill's rows: ids 1, 2, 1 give three bills, two of them with id 1. */
  lemma SplitIdGivesTwoBills(h1: Header, h2: Header, a: BillLine, b: BillLine, c: BillLine)
    requires h1.id == 1 && h2.id == 2
    ensures GroupRows([BillRow(h1, a), BillRow(h2, b), BillRow(h1, c)])
            == Ok([Bill(h1, [a]), Bill(h2, [b]), Bill(h1, [c])])
  {
    var r1, r2, r3 := BillRow(h1, a), BillRow(h2, b), BillRow(h1, c);
    var rows := [r1, r2, r3];
    var b1, b2, b3 := Bill(h1, [a]), Bill(h2, [b]), Bill(h1, [c]);
    var none: seq<Bill> := [];
    var noLines: seq<BillLine> := [];
    assert noLines + [a] == [a] && noLines + [b] == [b] && noLines + [c] == [c];
    assert [r1][..0] == [] && [r1, r2][..1] == [r1] && rows[..2] == [r1, r2];
    assert (none + [Bill(h1, noLines)])[0 := Bill(h1, noLines + [a])] == [b1];
    assert GroupRows([r1]) == Ok([b1]);
    assert ([b1] + [Bill(h2, noLines)])[1 := Bill(h2, noLines + [b])] == [b1, b2];
    assert GroupRows([r1, r2]) == Ok([b1, b2]);
    assert ([b1, b2] + [Bill(h1, noLines)])[2 := Bill(h1, noLines + [c])] == [b1, b2, b3];
  }

  // ---------------------------------------------------------------------------
  // Round trip: grouping is undone by spreading each bill back over its rows

  /** The joined rows of one bill: its header repeated beside each of its lines. */
  function BillRows(head: Header, lines: seq<BillLine>): (rows: seq<BillRow>)
    ensures |rows| == |lines|
  {
    if lines == [] then [] else BillRows(head, lines[..|lines| - 1]) + [BillRow(head, lines[|lines| - 1])]
  }

  function Ungroup(bills: seq<Bill>): (rows: seq<BillRow>)
  {
    if bills == [] then []
    else Ungroup(bills[..|bills| - 1]) + BillRows(bills[|bills| - 1].head, bills[|bills| - 1].lines)
  }

  /** Rows as a join returns them: neighbouring rows with the same id carry the same header. */
  predicate ConsistentHeaders(rows: seq<BillRow>)
  {
    forall i :: 0 < i < |rows| && rows[i - 1].head.id == rows[i].head.id ==> rows[i - 1].head == rows[i].head
  }

  /** With consistent headers, the header of the last bill is the header of the last row. */
  lemma {:induction false} LastBillHeader(rows: seq<BillRow>)
    requires GroupRows(rows).Ok? && rows != []
    requires ConsistentHeaders(rows)
    ensures GroupRows(rows).value != []
    ensures GroupRows(rows).value[|GroupRows(rows).value| - 1].head == rows[|rows| - 1].head
  {
    var n := |rows|;
    var prefix := rows[..n - 1];
    var row := rows[n - 1];
    GroupFailsIff(rows);
    GroupFailsIff(prefix);
    var bs := GroupRows(prefix).value;
    AddRowShape(bs, PrevId(prefix), row);
    if PrevId(prefix) == row.head.id {
      assert prefix != [];
      ConsistentPrefix(rows);
      LastBillHeader(prefix);
      assert rows[n - 2] == prefix[n - 2];
    }
  }

  /** Spreading a list that ends in a new one-line bill adds that one row. */
  lemma UngroupNewBill(bs: seq<Bill>, row: BillRow)
    ensures Ungroup(bs + [Bill(row.head, [row.line])]) == Ungroup(bs) + [row]
  {
    var bills := bs + [Bill(row.head, [row.line])];
    assert bills[..|bills| - 1] == bs;
    assert BillRows(row.head, [row.line]) == [row];
  }

  /** Spreading a list whose last bill got one more line adds one row: that bill's header
      beside the new line. */
  lemma UngroupExtendLast(front: seq<Bill>, b: Bill, l: BillLine)
    ensures Ungroup(front + [b.(lines := b.lines + [l])]) == Ungroup(front + [b]) + [BillRow(b.head, l)]
  {
    var grown := front + [b.(lines := b.lines + [l])];
    assert grown[..|front|] == front;
    assert (front + [b])[..|front|] == front;
    BillRowsAppend(b.head, b.lines, l);
  }

  lemma ConsistentPrefix(rows: seq<BillRow>)
    requires ConsistentHeaders(rows) && rows != []
    ensures ConsistentHeaders(rows[..|rows| - 1])
  {
    var prefix := rows[..|rows| - 1];
    forall i | 0 < i < |prefix| && prefix[i - 1].head.id == prefix[i].head.id
      ensures prefix[i - 1].head == prefix[i].head
    {
      assert prefix[i - 1] == rows[i - 1] && prefix[i] == rows[i];
    }
  }

  /** Grouping loses nothing: spreading the bills back over their lines gives the rows. */
  lemma {:induction false} UngroupGroup(rows: seq<BillRow>)
    requires GroupRows(rows).Ok?
    requires ConsistentHeaders(rows)
    ensures Ungroup(GroupRows(rows).value) == rows
  {
    if rows != [] {
      var n := |rows|;
      var prefix := rows[..n - 1];
      var row := rows[n - 1];
      assert prefix + [row] == rows;
      GroupFailsIff(rows);
      GroupFailsIff(prefix);
      ConsistentPrefix(rows);
      UngroupGroup(prefix);
      var bs := GroupRows(prefix).value;
      AddRowShape(bs, PrevId(prefix), row);
      if PrevId(prefix) != row.head.id {
        UngroupNewBill(bs, row);
      } else {
        LastBillHeader(prefix);
        assert rows[n - 2] == prefix[n - 2];
        var m := |bs|;
        assert bs[..m - 1] + [bs[m - 1]] == bs;
        UngroupExtendLast(bs[..m - 1], bs[m - 1], row.line);
      }
    }
  }

  /** The id and line of each row, in row order: what a row says whatever header it carries. */
  function KeyedLines(rows: seq<BillRow>): (keyed: seq<(int, BillLine)>)
    ensures |keyed| == |rows|
  {
    if rows == [] then [] else KeyedLines(rows[..|rows| - 1]) + [(rows[|rows| - 1].head.id, rows[|rows| - 1].line)]
  }

  lemma KeyedLinesAppend(rows: seq<BillRow>, r: BillRow)
    ensures KeyedLines(rows + [r]) == KeyedLines(rows) + [(r.head.id, r.line)]
  {
    assert (rows + [r])[..|rows|] == rows;
  }

  /** Opening a new one-line bill adds that row's id and line to the spread rows. */
  lemma KeyedNewBill(bs: seq<Bill>, row: BillRow)
    ensures KeyedLines(Ungroup(bs + [Bill(row.head, [row.line])])) == KeyedLines(Ungroup(bs)) + [(row.head.id, row.line)]
  {
    UngroupNewBill(bs, row);
    KeyedLinesAppend(Ungroup(bs), row);
  }

  /** Adding a line to the last bill adds that line, under the bill's id, to the spread rows. */
  lemma KeyedExtendLast(front: seq<Bill>, last: Bill, l: BillLine)
    ensures KeyedLines(Ungroup(front + [last.(lines := last.lines + [l])]))
            == KeyedLines(Ungroup(front + [last])) + [(last.head.id, l)]
  {
    UngroupExtendLast(front, last, l);
    KeyedLinesAppend(Ungroup(front + [last]), BillRow(last.head, l));
  }

  /** One turn of the loop adds the row's id and line to the spread bills. */
  lemma {:induction false} KeyedStep(bs: seq<Bill>, prevId: int, row: BillRow)
    requires AddRow(bs, prevId, row).Ok?
    requires bs != [] ==> bs[|bs| - 1].head.id == prevId
    ensures KeyedLines(Ungroup(AddRow(bs, prevId, row).value)) == KeyedLines(Ungroup(bs)) + [(row.head.id, row.line)]
  {
    AddRowShape(bs, prevId, row);
    if prevId != row.head.id {
      KeyedNewBill(bs, row);
    } else {
      var m := |bs|;
      assert bs[..m - 1] + [bs[m - 1]] == bs;
      KeyedExtendLast(bs[..m - 1], bs[m - 1], row.line);
    }
  }

  /** For any rows, each line lands in a bill with its own row's id, in row order: spreading
      the bills back over their lines gives the rows' ids and lines. */
  lemma {:induction false} GroupedKeyedLines(rows: seq<BillRow>)
    requires GroupRows(rows).Ok?
    ensures KeyedLines(Ungroup(GroupRows(rows).value)) == KeyedLines(rows)
  {
    if rows != [] {
      var n := |rows|;
      var prefix := rows[..n - 1];
      var row := rows[n - 1];
      assert prefix + [row] == rows;
      GroupFailsIff(rows);
      GroupFailsIff(prefix);
      GroupedKeyedLines(prefix);
      GroupedWell(prefix);
      KeyedStep(GroupRows(prefix).value, PrevId(prefix), row);
      KeyedLinesAppend(prefix, row);
    }
  }

  lemma {:induction false} BillRowsAppend(head: Header, lines: seq<BillLine>, l: BillLine)
    ensures BillRows(head, lines + [l]) == BillRows(head, lines) + [BillRow(head, l)]
  {
    assert (lines + [l])[..|lines|] == lines;
  }

  /** Appending the rows of one bill whose id differs from the previous row's opens exactly that bill. */
  lemma {:induction false} GroupAppendBill(prefix: seq<BillRow>, bills: seq<Bill>, head: Header, lines: seq<BillLine>)
    requires GroupRows(prefix) == Ok(bills)
    requires PrevId(prefix) != head.id
    requires lines != []
    ensures GroupRows(prefix + BillRows(head, lines)) == Ok(bills + [Bill(head, lines)])
    ensures PrevId(prefix + BillRows(head, lines)) == head.id
  {
    var m := |lines|;
    var rows := prefix + BillRows(head, lines);
    var l := lines[m - 1];
    assert lines[..m - 1] + [l] == lines;
    BillRowsAppend(head, lines[..m - 1], l);
    assert rows == (prefix + BillRows(head, lines[..m - 1])) + [BillRow(head, l)];
    assert rows[..|rows| - 1] == prefix + BillRows(head, lines[..m - 1]);
    if m == 1 {
      assert lines[..0] == [];
      assert rows[..|rows| - 1] == prefix;
      AddRowShape(bills, PrevId(prefix), BillRow(head, l));
      assert lines == [l];
    } else {
      GroupAppendBill(prefix, bills, head, lines[..m - 1]);
      AddRowShape(bills + [Bill(head, lines[..m - 1])], head.id, BillRow(head, l));
      var k := |bills|;
      assert (bills + [Bill(head, lines[..m - 1])])[k := Bill(head, lines[..m - 1] + [l])]
          == bills + [Bill(head, lines)];
    }
  }

  /** Dropping the last bill keeps the list well grouped, and the last bill's id differs from
      the id the remaining list ends with (or from -1 when nothing remains). */
  lemma WellGroupedFront(bills: seq<Bill>)
    requires WellGrouped(bills) && bills != []
    ensures var front := bills[..|bills| - 1];
      && WellGrouped(front)
      && bills[|bills| - 1].lines != []
      && (front == [] ==> bills[|bills| - 1].head.id != -1)
      && (front != [] ==> front[|front| - 1].head.id != bills[|bills| - 1].head.id)
  {
    var n := |bills|;
    if n > 1 {
      assert bills[..n - 1][n - 2] == bills[n - 2];
    }
  }

  /** Grouping undoes spreading: well-grouped bills come back unchanged from their rows. */
  lemma {:induction false} GroupUngroup(bills: seq<Bill>)
    requires WellGrouped(bills)
    ensures GroupRows(Ungroup(bills)) == Ok(bills)
    ensures bills != [] ==> PrevId(Ungroup(bills)) == bills[|bills| - 1].head.id
    ensures bills == [] ==> Ungroup(bills) == []
  {
    if bills != [] {
      var n := |bills|;
      var b := bills[n - 1];
      var front := bills[..n - 1];
      WellGroupedFront(bills);
      GroupUngroup(front);
      GroupAppendBill(Ungroup(front), front, b.head, b.lines);
      assert front + [Bill(b.head, b.lines)] == bills;
    }
  }

  // ---------------------------------------------------------------------------
  // The three entry points

  /** `resultSetToBillsList`: runs the query built from `condition`, groups the rows the
      database returns (`rows`), and then, when asked to, deletes the matching bills. The
      statements issued are returned in order; the fault escapes before the DELETE. */
  method ResultSetToBillsList(condition: string, delete: bool, rows: seq<BillRow>)
    returns (issued: seq<string>, r: Result<seq<Bill>>)
    ensures r == GroupRows(rows)
    ensures issued == [QueryText(condition)] + (if delete && r.Ok? then [DeleteText(condition)] else [])
  {
    var query := JoinQuery + condition + ")";
    issued := [query + condition];
    r := GroupBills(rows);
    if r.Err? {
      return;
    }
    if delete {
      issued := issued + [DeleteQuery + condition];
    }
  }

  /** `findBills`: the condition from the optional dates and payment modes, then the query. */
  method FindBills(from: Option<string>, to: Option<string>, payments: Option<seq<string>>,
                   delete: bool, rows: seq<BillRow>)
    returns (issued: seq<string>, r: Result<seq<Bill>>)
    ensures r == GroupRows(rows)
    ensures issued == [QueryText(Conditions.Condition(from, to, payments))]
                      + (if delete && r.Ok? then [DeleteText(Conditions.Condition(from, to, payments))] else [])
  {
    var condition := Conditions.BuildCondition(from, to, payments);
    issued, r := ResultSetToBillsList(condition, delete, rows);
  }

  /** `findBillsByCustomer`: a LIKE condition on the customer, never deleting. */
  method FindBillsByCustomer(pattern: string, rows: seq<BillRow>)
    returns (issued: seq<string>, r: Result<seq<Bill>>)
    ensures r == GroupRows(rows)
    ensures issued == [QueryText(CustomerCondition(pattern))]
  {
    issued, r := ResultSetToBillsList(CustomerClause + pattern + "%", false, rows);
  }
}
