/**
 * The event table of the instructions page (frclinks.py:80-92): the event
 * list is laid out in three columns read top to bottom, so a table of
 * `n` events has `(n + 2) / 3` rows and row `i` shows events `i`, `i + c`
 * and `i + 2c`, each as a code and a name.
 */
module EventTable {
  import opened Wrappers

  /** One entry of events.json. */
  datatype EventInfo = EventInfo(code: string, name: string)

  /** The number of rows, `c`, for `n` events. */
  function Rows(n: nat): nat {
    (n + 2) / 3
  }

  /** Three columns of `c` rows hold every event, and two columns never suffice once `n >= 2`. */
  lemma RowsBounds(n: nat)
    ensures n <= 3 * Rows(n)
    ensures n >= 2 ==> 2 * Rows(n) <= n
    ensures n == 1 ==> Rows(n) == 1
  {
  }

  /** The events shown in row `i`: `i`, then `i + c` and `i + 2c` where they exist. */
  function RowIndices(n: nat, i: nat): (idx: seq<nat>)
    requires i < Rows(n)
    ensures 1 <= |idx| <= 3 && idx[0] == i
    ensures forall k :: 0 <= k < |idx| ==> idx[k] < n
    ensures forall k :: 1 <= k < |idx| ==> idx[k] == idx[k - 1] + Rows(n)
    ensures idx[|idx| - 1] + Rows(n) >= n
  {
    var c := Rows(n);
    [i] + (if i + c < n then [i + c] else []) + (if i + 2 * c < n then [i + 2 * c] else [])
  }

  /** The row that shows event `x`. */
  function RowOf(n: nat, x: nat): nat
    requires x < n
  {
    var c := Rows(n);
    if x < c then x else if x < 2 * c then x - c else x - 2 * c
  }

  /** Every event appears in the table, in exactly one row. */
  lemma EachEventOnce(n: nat, x: nat)
    requires x < n
    ensures RowOf(n, x) < Rows(n) && x in RowIndices(n, RowOf(n, x))
    ensures forall i: nat :: i < Rows(n) && x in RowIndices(n, i) ==> i == RowOf(n, x)
  {
    RowsBounds(n);
    var c := Rows(n);
    var idx := RowIndices(n, RowOf(n, x));
    if x < c {
      assert idx[0] == x;
    } else if x < 2 * c {
      assert idx[1] == x;
    } else {
      assert idx[2] == x;
    }
  }

  function Cell(es: seq<EventInfo>, x: nat): seq<string>
    requires x < |es|
  {
    [es[x].code, es[x].name]
  }

  /** The code and name of each listed event, in order. */
  function Cells(es: seq<EventInfo>, idx: seq<nat>): (r: seq<string>)
    requires forall k :: 0 <= k < |idx| ==> idx[k] < |es|
    ensures |r| == 2 * |idx|
    ensures forall k :: 0 <= k < |idx| ==> r[2 * k] == es[idx[k]].code && r[2 * k + 1] == es[idx[k]].name
  {
    if idx == [] then [] else Cell(es, idx[0]) + Cells(es, idx[1..])
  }

  /** Row `i` of the table as the page shows it. */
  function Row(es: seq<EventInfo>, i: nat): seq<string>
    requires i < Rows(|es|)
  {
    Cells(es, RowIndices(|es|, i))
  }

  /**
   * The loop of frclinks.py:82-92 as written: the second column is read
   * without a bound check. With a single event that read is out of range
   * (None stands for the IndexError); for any other count the loop builds
   * the whole table.
   */
  method BuildTableAsWritten(eventList: seq<EventInfo>) returns (events: Option<seq<seq<string>>>)
    ensures events.None? <==> |eventList| == 1
    ensures events.Some? ==>
      (|events.value| == Rows(|eventList|) &&
       forall i :: 0 <= i < |events.value| ==> events.value[i] == Row(eventList, i))
  {
    var n := |eventList|;
    RowsBounds(n);
    var rows: seq<seq<string>> := [];
    for i := 0 to (n + 2) / 3
      invariant n == 1 ==> i == 0
      invariant |rows| == i
      invariant forall r :: 0 <= r < i ==> rows[r] == Row(eventList, r)
    {
      var j := i + (n + 2) / 3;
      if j >= n {
        // eventList[j] is out of range: the IndexError
        return None;
      }
      // with eventList[j] in range, the rest of the body is the guarded row
      var row := BuildRow(eventList, i);
      rows := rows + [row];
    }
    return Some(rows);
  }

  /** The same loop with the second column guarded like the third: every count builds the table. */
  method BuildTable(eventList: seq<EventInfo>) returns (events: seq<seq<string>>)
    ensures |events| == Rows(|eventList|)
    ensures forall i :: 0 <= i < |events| ==> events[i] == Row(eventList, i)
  {
    var n := |eventList|;
    events := [];
    for i := 0 to (n + 2) / 3
      invariant |events| == i
      invariant forall r :: 0 <= r < i ==> events[r] == Row(eventList, r)
    {
      var row := BuildRow(eventList, i);
      events := events + [row];
    }
  }

  /** One pass of the guarded loop's body: row `i`, each column added only if it exists. */
  method BuildRow(eventList: seq<EventInfo>, i: nat) returns (row: seq<string>)
    requires i < Rows(|eventList|)
    ensures row == Row(eventList, i)
  {
    var n := |eventList|;
    row := [eventList[i].code, eventList[i].name];
    var j := i + (n + 2) / 3;
    if j < n {
      row := row + [eventList[j].code, eventList[j].name];
    }
    var k := j + (n + 2) / 3;
    if k < n {
      row := row + [eventList[k].code, eventList[k].name];
    }
    RowHasCells(eventList, i, row);
  }

  /** A row assembled column by column is the row of the layout. */
  lemma RowHasCells(es: seq<EventInfo>, i: nat, row: seq<string>)
    requires i < Rows(|es|)
    requires var c := Rows(|es|);
      row == Cell(es, i) +
             (if i + c < |es| then Cell(es, i + c) else []) +
             (if i + 2 * c < |es| then Cell(es, i + 2 * c) else [])
    ensures row == Row(es, i)
  {
    var idx := RowIndices(|es|, i);
    var r := Row(es, i);
    assert |r| == |row|;
    forall k | 0 <= k < |row| ensures row[k] == r[k] {
      assert r[2 * (k / 2)] == es[idx[k / 2]].code;
      assert r[2 * (k / 2) + 1] == es[idx[k / 2]].name;
    }
  }
}
