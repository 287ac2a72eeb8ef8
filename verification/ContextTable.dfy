/**
 The `context_items` table of one conversation: rows ordered by a unique ordinal.
 Replacing a range resequences the survivors through negative temporaries, so that
 the uniqueness constraint holds at every single update.
 */
module ContextTable {
  import opened SummaryDag

  datatype Row = Row(ordinal: int, item: Item)

  function Items(rows: seq<Row>): (items: seq<Item>)
    ensures |items| == |rows|
  {
    seq(|rows|, i requires 0 <= i < |rows| => rows[i].item)
  }

  /** The rows as `ORDER BY ordinal` returns them. */
  ghost predicate Ordered(rows: seq<Row>) {
    && (forall i, j :: 0 <= i < j < |rows| ==> rows[i].ordinal < rows[j].ordinal)
    && (forall i :: 0 <= i < |rows| ==> 0 <= rows[i].ordinal)
  }

  predicate Contiguous(rows: seq<Row>) {
    forall i :: 0 <= i < |rows| ==> rows[i].ordinal == i
  }

  ghost predicate Unique(rows: seq<Row>) {
    forall i, j :: 0 <= i < j < |rows| ==> rows[i].ordinal != rows[j].ordinal
  }

  /** One `UPDATE` of an ordinal; the constraint demands that the new ordinal is not taken. */
  function Renumber(rows: seq<Row>, from: int, to: int): (rows': seq<Row>)
    requires Unique(rows)
    requires forall i :: 0 <= i < |rows| ==> rows[i].ordinal != to
    ensures |rows'| == |rows| && Unique(rows')
  {
    seq(|rows|, i requires 0 <= i < |rows| => if rows[i].ordinal == from then rows[i].(ordinal := to) else rows[i])
  }

  function Before(rows: seq<Row>, start: int): seq<Row> {
    if rows == [] then []
    else
      var last := rows[|rows| - 1];
      Before(rows[..|rows| - 1], start) + if last.ordinal < start then [last] else []
  }

  function After(rows: seq<Row>, end: int): seq<Row> {
    if rows == [] then []
    else
      var last := rows[|rows| - 1];
      After(rows[..|rows| - 1], end) + if last.ordinal > end then [last] else []
  }

  lemma {:induction false} BeforeOrdered(rows: seq<Row>, start: int)
    requires Ordered(rows)
    ensures Ordered(Before(rows, start))
    ensures forall r <- Before(rows, start) :: r in rows && r.ordinal < start
  {
    if rows != [] {
      var init := rows[..|rows| - 1];
      BeforeOrdered(init, start);
      forall r <- Before(init, start) ensures r.ordinal < rows[|rows| - 1].ordinal {
        assert r in init;
      }
      Below(Before(init, start), rows[|rows| - 1]);
    }
  }

  lemma {:induction false} AfterOrdered(rows: seq<Row>, end: int)
    requires Ordered(rows)
    ensures Ordered(After(rows, end))
    ensures forall r <- After(rows, end) :: r in rows && r.ordinal > end
  {
    if rows != [] {
      var init := rows[..|rows| - 1];
      AfterOrdered(init, end);
      forall r <- After(init, end) ensures r.ordinal < rows[|rows| - 1].ordinal {
        assert r in init;
      }
      Below(After(init, end), rows[|rows| - 1]);
    }
  }

  lemma Below(rows: seq<Row>, last: Row)
    requires Ordered(rows) && last.ordinal >= 0 && forall r <- rows :: r.ordinal < last.ordinal
    ensures Ordered(rows + [last])
  {
    forall i | 0 <= i < |rows| ensures rows[i].ordinal < last.ordinal {
      assert rows[i] in rows;
    }
  }

  lemma Joined(before: seq<Row>, mid: Row, after: seq<Row>)
    requires Ordered(before) && Ordered(after) && mid.ordinal >= 0
    requires forall r <- before :: r.ordinal < mid.ordinal
    requires forall r <- after :: r.ordinal > mid.ordinal
    ensures Ordered(before + [mid] + after)
  {
    forall i | 0 <= i < |before| ensures before[i].ordinal < mid.ordinal { assert before[i] in before; }
    forall i | 0 <= i < |after| ensures after[i].ordinal > mid.ordinal { assert after[i] in after; }
  }

  /** Two passes through negative temporaries leave the ordinals 0, 1, 2, ... */
  method Resequence(rows: seq<Row>) returns (rows': seq<Row>)
    requires Ordered(rows)
    ensures Contiguous(rows') && Items(rows') == Items(rows)
  {
    rows' := rows;
    var n := |rows|;
    for i := 0 to n
      invariant |rows'| == n && Unique(rows') && Items(rows') == Items(rows)
      invariant forall k :: 0 <= k < i ==> rows'[k].ordinal == -(k + 1)
      invariant forall k :: i <= k < n ==> rows'[k] == rows[k]
    {
      var next := Renumber(rows', rows[i].ordinal, -(i + 1));
      forall k | 0 <= k < n ensures next[k].item == rows[k].item {
        assert rows'[k].item == Items(rows')[k] == Items(rows)[k];
      }
      rows' := next;
      assert Items(rows') == Items(rows);
    }
    for i := 0 to n
      invariant |rows'| == n && Unique(rows') && Items(rows') == Items(rows)
      invariant forall k :: 0 <= k < i ==> rows'[k].ordinal == k
      invariant forall k :: i <= k < n ==> rows'[k].ordinal == -(k + 1)
    {
      var next := Renumber(rows', -(i + 1), i);
      forall k | 0 <= k < n ensures next[k].item == rows[k].item {
        assert rows'[k].item == Items(rows')[k] == Items(rows)[k];
      }
      rows' := next;
      assert Items(rows') == Items(rows);
    }
  }

  method OutsideRange(rows: seq<Row>, start: int, end: int) returns (before: seq<Row>, after: seq<Row>)
    ensures before == Before(rows, start) && after == After(rows, end)
  {
    before, after := [], [];
    for i := 0 to |rows|
      invariant before == Before(rows[..i], start) && after == After(rows[..i], end)
    {
      assert rows[..i + 1][..i] == rows[..i];
      if rows[i].ordinal < start {
        before := before + [rows[i]];
      }
      if rows[i].ordinal > end {
        after := after + [rows[i]];
      }
    }
    assert rows[..|rows|] == rows;
  }

  lemma ItemsJoined(before: seq<Row>, mid: Row, after: seq<Row>)
    ensures Items(before + [mid] + after) == Items(before) + [mid.item] + Items(after)
  {
  }

  /**
   The three-phase replacement, for any table, also one with gaps: the rows of the
   inclusive range give way to one summary and the result is contiguous.
   */
  method ReplaceRange(rows: seq<Row>, start: int, end: int, id: SummaryId) returns (rows': seq<Row>)
    requires Ordered(rows) && 0 <= start <= end
    ensures Contiguous(rows')
    ensures Items(rows') == Items(Before(rows, start)) + [SummaryItem(id)] + Items(After(rows, end))
  {
    var before, after := OutsideRange(rows, start, end);
    BeforeOrdered(rows, start);
    AfterOrdered(rows, end);
    rows' := before + [Row(start, SummaryItem(id))] + after;
    Joined(before, Row(start, SummaryItem(id)), after);
    ItemsJoined(before, Row(start, SummaryItem(id)), after);
    if !Contiguous(rows') {
      rows' := Resequence(rows');
    }
  }

  /** In a contiguous table the range is a slice. */
  lemma {:induction false} SliceOfContiguous(rows: seq<Row>, start: nat, end: nat)
    requires Contiguous(rows)
    ensures Before(rows, start) == rows[..if start < |rows| then start else |rows|]
    ensures After(rows, end) == rows[if end < |rows| then end + 1 else |rows|..]
  {
    if rows != [] {
      SliceOfContiguous(rows[..|rows| - 1], start, end);
    }
  }
}
