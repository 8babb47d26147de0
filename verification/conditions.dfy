/** The WHERE condition that `findBills` composes from an optional start date,
    an optional end date and an optional list of payment modes. */
module Conditions {
  import opened Records

  const FromClause: string := "APP.ventas.cuando >= "
  const ToClause: string := "APP.ventas.cuando <= "
  const PaymentClause: string := "APP.ventas.modo_pago IN ("
  const And: string := " AND "

  /** `parts` with `sep` between each two consecutive parts, and nowhere else. */
  function Join(parts: seq<string>, sep: string): (joined: string)
  {
    if |parts| == 0 then ""
    else if |parts| == 1 then parts[0]
    else Join(parts[..|parts| - 1], sep) + sep + parts[|parts| - 1]
  }

  /** Every part followed by a comma: the text the payment loop builds before its last comma is removed. */
  function Terminated(parts: seq<string>): (text: string)
  {
    if |parts| == 0 then "" else Terminated(parts[..|parts| - 1]) + parts[|parts| - 1] + ","
  }

  /** The clauses that are present, in their fixed order: from-date, to-date, payment modes. */
  function Clauses(from: Option<string>, to: Option<string>, payments: Option<seq<string>>): (cs: seq<string>)
    ensures forall i :: 0 <= i < |cs| ==> cs[i] != ""
  {
    FromPart(from) + ToPart(to) + PaymentPart(payments)
  }

  function FromPart(from: Option<string>): (part: seq<string>)
  {
    if from.Some? then [FromClause + from.value] else []
  }

  function ToPart(to: Option<string>): (part: seq<string>)
  {
    if to.Some? then [ToClause + to.value] else []
  }

  function PaymentPart(payments: Option<seq<string>>): (part: seq<string>)
  {
    if payments.Some? && |payments.value| > 0 then [PaymentClause + Join(payments.value, ",") + ")"] else []
  }

  /** The condition text `findBills` hands on: the present clauses joined by " AND ". */
  function Condition(from: Option<string>, to: Option<string>, payments: Option<seq<string>>): (condition: string)
  {
    Join(Clauses(from, to, payments), And)
  }

  /** Splits `s` at every occurrence of `sep`; the inverse of joining with `sep`. */
  function Split(s: string, sep: char): (r: seq<string>)
    ensures |r| > 0
  {
    if |s| == 0 then [""]
    else if s[0] == sep then [""] + Split(s[1..], sep)
    else var t := Split(s[1..], sep); [[s[0]] + t[0]] + t[1..]
  }

  /** `findBills`' StringBuilder work: each present clause is appended, preceded by
      " AND " when the builder is not empty; the payment modes are each appended with
      a trailing comma and the last comma is then deleted. */
  method BuildCondition(from: Option<string>, to: Option<string>, payments: Option<seq<string>>)
    returns (condition: string)
    ensures condition == Condition(from, to, payments)
  {
    var sb := DateCondition(from, to);
    ghost var cs := FromPart(from) + ToPart(to);
    if payments.Some? && |payments.value| > 0 {
      var ps := payments.value;
      ghost var before := sb;
      if |sb| > 0 {
        sb := sb + And;
      }
      sb := AppendPaymentModes(sb, ps);
      AppendClause(before, cs, PaymentClause + Join(ps, ",") + ")");
    } else {
      assert cs + [] == cs;
    }
    condition := sb;
  }

  /** The date part of the builder: the start-date clause, then " AND " if the builder
      is not empty and the end-date clause. */
  method DateCondition(from: Option<string>, to: Option<string>) returns (sb: string)
    ensures sb == Join(FromPart(from) + ToPart(to), And)
    ensures sb == "" <==> FromPart(from) + ToPart(to) == []
  {
    sb := "";
    if from.Some? {
      sb := sb + FromClause + from.value;
    }
    assert sb == Join(FromPart(from), And);
    if to.Some? {
      ghost var before := sb;
      if |sb| > 0 {
        sb := sb + And;
      }
      sb := sb + ToClause + to.value;
      AppendClause(before, FromPart(from), ToClause + to.value);
    } else {
      assert FromPart(from) + [] == FromPart(from);
    }
  }

  /** The payment part of the builder: the IN prefix, every mode followed by a comma,
      then the last comma deleted and the parenthesis closed. */
  method AppendPaymentModes(lead: string, ps: seq<string>) returns (sb: string)
    requires |ps| > 0
    ensures sb == lead + (PaymentClause + Join(ps, ",") + ")")
  {
    sb := lead + PaymentClause;
    ghost var prefix := sb;
    for i := 0 to |ps|
      invariant sb == prefix + Terminated(ps[..i])
    {
      assert ps[..i + 1][..i] == ps[..i];
      sb := sb + ps[i] + ",";
    }
    assert ps[..|ps|] == ps;
    DeleteLastComma(lead, ps);
    sb := sb[..|sb| - 1];
    sb := sb + ")";
  }

  /** One step of the builder: " AND " when something is already there, then the clause. */
  lemma AppendClause(sb: string, cs: seq<string>, clause: string)
    requires sb == Join(cs, And)
    requires sb == "" <==> cs == []
    ensures (if |sb| > 0 then sb + And else sb) + clause == Join(cs + [clause], And)
  {
    JoinAppend(cs, clause, And);
  }

  lemma JoinAppend(parts: seq<string>, p: string, sep: string)
    ensures Join(parts + [p], sep) == if parts == [] then p else Join(parts, sep) + sep + p
  {
    assert (parts + [p])[..|parts|] == parts;
  }

  /** A join of non-empty parts is empty exactly when there are no parts. */
  lemma {:induction false} JoinEmptyIff(parts: seq<string>, sep: string)
    requires forall i :: 0 <= i < |parts| ==> parts[i] != ""
    ensures Join(parts, sep) == "" <==> parts == []
  {
    if |parts| > 1 {
      assert |Join(parts, sep)| >= |parts[|parts| - 1]| > 0;
    }
  }

  /** What `deleteCharAt(length() - 1)` leaves after the payment loop. */
  lemma DeleteLastComma(lead: string, ps: seq<string>)
    requires |ps| > 0
    ensures var t := lead + PaymentClause + Terminated(ps);
      |t| > 0 && t[..|t| - 1] + ")" == lead + (PaymentClause + Join(ps, ",") + ")")
  {
    TerminatedIsJoinPlusComma(ps);
    var j := lead + PaymentClause + Join(ps, ",");
    assert lead + PaymentClause + Terminated(ps) == j + ",";
    assert (j + ",")[..|j|] == j;
  }

  lemma {:induction false} TerminatedIsJoinPlusComma(parts: seq<string>)
    requires |parts| > 0
    ensures Terminated(parts) == Join(parts, ",") + ","
  {
    var n := |parts|;
    if n > 1 {
      TerminatedIsJoinPlusComma(parts[..n - 1]);
      assert parts[..n - 1][..n - 2] == parts[..n - 2];
    } else {
      assert parts[..0] == [];
    }
  }

  /** The condition is empty exactly when neither date is given and the payment list is null or empty. */
  lemma ConditionEmptyIff(from: Option<string>, to: Option<string>, payments: Option<seq<string>>)
    ensures Condition(from, to, payments) == ""
            <==> from.None? && to.None? && (payments.None? || payments.value == [])
  {
    JoinEmptyIff(Clauses(from, to, payments), And);
  }

  /** A join starts with its first part and ends with its last part, so the separator
      never leads and never trails. */
  lemma {:induction false} JoinFrame(parts: seq<string>, sep: string)
    requires |parts| > 0
    ensures |Join(parts, sep)| >= |parts[0]| && |Join(parts, sep)| >= |parts[|parts| - 1]|
    ensures Join(parts, sep)[..|parts[0]|] == parts[0]
    ensures Join(parts, sep)[|Join(parts, sep)| - |parts[|parts| - 1]|..] == parts[|parts| - 1]
  {
    var n := |parts|;
    if n > 1 {
      JoinFrame(parts[..n - 1], sep);
      var j := Join(parts[..n - 1], sep);
      assert Join(parts, sep) == j + sep + parts[n - 1];
      assert (j + sep + parts[n - 1])[..|parts[0]|] == j[..|parts[0]|];
    }
  }

  /** The length of a join: every part once, and one separator between each two parts. */
  lemma {:induction false} JoinLength(parts: seq<string>, sep: string)
    requires |parts| > 0
    ensures |Join(parts, sep)| == TotalLength(parts) + (|parts| - 1) * |sep|
  {
    var n := |parts|;
    if n > 1 {
      JoinLength(parts[..n - 1], sep);
      TotalLengthAppend(parts[..n - 1], parts[n - 1]);
      assert parts[..n - 1] + [parts[n - 1]] == parts;
      assert (n - 1) * |sep| == (n - 2) * |sep| + |sep|;
    } else {
      TotalLengthAppend([], parts[0]);
      assert [] + [parts[0]] == parts;
    }
  }

  function TotalLength(parts: seq<string>): (total: nat)
  {
    if |parts| == 0 then 0 else |parts[0]| + TotalLength(parts[1..])
  }

  lemma {:induction false} TotalLengthAppend(parts: seq<string>, p: string)
    ensures TotalLength(parts + [p]) == TotalLength(parts) + |p|
  {
    if |parts| > 0 {
      TotalLengthAppend(parts[1..], p);
      assert (parts + [p])[1..] == parts[1..] + [p];
    }
  }

  /** The clauses appear in the fixed order from-date, to-date, payments: the condition
      starts with the first present clause and ends with the last one, and " AND " sits
      only between two present clauses. */
  lemma ConditionLayout(from: Option<string>, to: Option<string>, payments: Option<seq<string>>)
    ensures var c, cs := Condition(from, to, payments), Clauses(from, to, payments);
      && |cs| == (if from.Some? then 1 else 0) + (if to.Some? then 1 else 0)
                 + (if payments.Some? && payments.value != [] then 1 else 0)
      && (from.Some? ==> cs[0] == FromClause + from.value)
      && (to.Some? ==> cs[if from.Some? then 1 else 0] == ToClause + to.value)
      && (cs != [] ==> |c| == TotalLength(cs) + (|cs| - 1) * |And|
                       && c[..|cs[0]|] == cs[0] && c[|c| - |cs[|cs| - 1]|..] == cs[|cs| - 1])
  {
    var cs := Clauses(from, to, payments);
    if cs != [] {
      JoinFrame(cs, And);
      JoinLength(cs, And);
    }
  }

  /** A non-empty payment list gives the clause that opens with the IN prefix and closes with
      a parenthesis; when no payment text holds a comma, splitting the inside of the parentheses
      at the commas gives back exactly the payments, in order. */
  lemma PaymentClauseRoundTrip(payments: seq<string>)
    requires |payments| > 0
    requires forall i :: 0 <= i < |payments| ==> ',' !in payments[i]
    ensures var c := Condition(None, None, Some(payments));
      && |c| >= |PaymentClause| + 1
      && c[..|PaymentClause|] == PaymentClause
      && c[|c| - 1] == ')'
      && Split(c[|PaymentClause|..|c| - 1], ',') == payments
  {
    var inner := Join(payments, ",");
    assert Clauses(None, None, Some(payments)) == [PaymentClause + inner + ")"];
    var c := PaymentClause + inner + ")";
    assert c[|PaymentClause|..|c| - 1] == inner;
    SplitJoin(payments);
  }

  lemma {:induction false} SplitJoin(parts: seq<string>)
    requires |parts| > 0
    requires forall i :: 0 <= i < |parts| ==> ',' !in parts[i]
    ensures Split(Join(parts, ","), ',') == parts
  {
    var n := |parts|;
    if n == 1 {
      SplitWithout(parts[0], ',');
    } else {
      SplitJoin(parts[..n - 1]);
      SplitAppend(Join(parts[..n - 1], ","), parts[n - 1], ',');
      SplitWithout(parts[n - 1], ',');
      assert Join(parts[..n - 1], ",") + "," + parts[n - 1] == Join(parts[..n - 1], ",") + [','] + parts[n - 1];
      assert parts[..n - 1] + [parts[n - 1]] == parts;
    }
  }

  lemma {:induction false} SplitWithout(s: string, sep: char)
    requires sep !in s
    ensures Split(s, sep) == [s]
  {
    if |s| > 0 {
      SplitWithout(s[1..], sep);
      assert [s[0]] + s[1..] == s;
    }
  }

  /** Splitting a text by its first character. */
  lemma SplitCons(c: char, rest: string, sep: char)
    ensures var t := Split(rest, sep);
      Split([c] + rest, sep) == if c == sep then [""] + t else [[c] + t[0]] + t[1..]
  {
    assert ([c] + rest)[0] == c && ([c] + rest)[1..] == rest;
  }

  lemma {:induction false} SplitAppend(a: string, b: string, sep: char)
    ensures Split(a + [sep] + b, sep) == Split(a, sep) + Split(b, sep)
  {
    if |a| == 0 {
      assert a + [sep] + b == [sep] + b;
      SplitCons(sep, b, sep);
    } else {
      var tail := a[1..];
      SplitAppend(tail, b, sep);
      SplitConsAppend(a[0], tail, b, sep);
      assert [a[0]] + tail == a;
      assert [a[0]] + (tail + [sep] + b) == a + [sep] + b;
    }
  }

  /** The inductive step of `SplitAppend`: putting one character in front of both sides. */
  lemma SplitConsAppend(c: char, tail: string, b: string, sep: char)
    requires Split(tail + [sep] + b, sep) == Split(tail, sep) + Split(b, sep)
    ensures Split([c] + (tail + [sep] + b), sep) == Split([c] + tail, sep) + Split(b, sep)
  {
    SplitCons(c, tail, sep);
    SplitCons(c, tail + [sep] + b, sep);
    if c == sep {
      ConsAssoc("", Split(tail, sep), Split(b, sep));
    } else {
      MergeHeadAssoc([c], Split(tail, sep), Split(b, sep));
    }
  }

  lemma ConsAssoc(h: string, x: seq<string>, y: seq<string>)
    ensures [h] + (x + y) == ([h] + x) + y
  {
  }

  lemma MergeHeadAssoc(h: string, x: seq<string>, y: seq<string>)
    requires |x| > 0
    ensures [h + (x + y)[0]] + (x + y)[1..] == ([h + x[0]] + x[1..]) + y
  {
    assert (x + y)[0] == x[0];
    assert (x + y)[1..] == x[1..] + y;
  }
}
