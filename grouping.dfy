/** `SUM(..) .. GROUP BY <key>` and the loop that adds up the rows it
    returns (report.c:189-197, budget_tracker.c:359-367). */
module Grouping {
  import opened Common

  /** One input row of the grouping (key, charge), and one result row (key, sum). */
  datatype Entry = Entry(key: string, amount: real)

  /** The sum of the amounts. */
  function Total(es: seq<Entry>): real
    decreases |es|
  {
    if es == [] then 0.0 else Total(es[..|es| - 1]) + es[|es| - 1].amount
  }

  /** The sum of the amounts carrying one key. */
  function SumFor(es: seq<Entry>, key: string): real
    decreases |es|
  {
    if es == [] then 0.0
    else SumFor(es[..|es| - 1], key) + (if es[|es| - 1].key == key then es[|es| - 1].amount else 0.0)
  }

  predicate HasKey(es: seq<Entry>, key: string)
  {
    exists i :: 0 <= i < |es| && es[i].key == key
  }

  predicate DistinctKeys(gs: seq<Entry>)
  {
    forall i, j :: 0 <= i < j < |gs| ==> gs[i].key != gs[j].key
  }

  /** Position of the result row for a key. */
  function KeyIndex(gs: seq<Entry>, key: string): (r: Option<nat>)
    ensures r.Some? ==> r.value < |gs| && gs[r.value].key == key
    ensures r.None? <==> !HasKey(gs, key)
    decreases |gs|
  {
    if gs == [] then None
    else if gs[0].key == key then Some(0)
    else match KeyIndex(gs[1..], key)
      case None => (assert forall i :: 1 <= i < |gs| ==> gs[i] == gs[1..][i - 1]; None)
      case Some(k) => Some(k + 1)
  }

  /** Feeding one more input row to the grouping. */
  function Add(gs: seq<Entry>, e: Entry): seq<Entry>
  {
    match KeyIndex(gs, e.key)
    case Some(k) => gs[k := Entry(e.key, gs[k].amount + e.amount)]
    case None => gs + [e]
  }

  /** The result rows, one per key, in the order the keys first appear. */
  function Group(es: seq<Entry>): seq<Entry>
    decreases |es|
  {
    if es == [] then [] else Add(Group(es[..|es| - 1]), es[|es| - 1])
  }

  /** Replacing one row changes the total by the difference. */
  lemma {:induction false} TotalUpdate(gs: seq<Entry>, k: nat, x: Entry)
    requires k < |gs|
    ensures Total(gs[k := x]) == Total(gs) - gs[k].amount + x.amount
    decreases |gs|
  {
    var n := |gs| - 1;
    if k < n {
      TotalUpdate(gs[..n], k, x);
      assert gs[k := x][..n] == gs[..n][k := x];
    } else {
      assert gs[k := x][..n] == gs[..n];
    }
  }

  lemma TotalAppend(gs: seq<Entry>, e: Entry)
    ensures Total(gs + [e]) == Total(gs) + e.amount
  {
    assert (gs + [e])[..|gs|] == gs;
  }

  /** Every input row's amount lands in exactly one result row, so the result
      rows add up to the same total as the input rows. */
  lemma {:induction false} GroupTotal(es: seq<Entry>)
    ensures Total(Group(es)) == Total(es)
    decreases |es|
  {
    if es != [] {
      var gs := Group(es[..|es| - 1]);
      var e := es[|es| - 1];
      GroupTotal(es[..|es| - 1]);
      assert Group(es) == Add(gs, e);
      match KeyIndex(gs, e.key)
      case Some(k) => TotalUpdate(gs, k, Entry(e.key, gs[k].amount + e.amount));
      case None => TotalAppend(gs, e);
    }
  }

  /** The result has one row per key that occurs in the input and no other,
      and each row's amount is the sum of the input amounts with its key. */
  lemma {:induction false} GroupShape(es: seq<Entry>)
    ensures var gs := Group(es);
      && DistinctKeys(gs)
      && (forall key :: HasKey(gs, key) <==> HasKey(es, key))
      && (forall k :: 0 <= k < |gs| ==> gs[k].amount == SumFor(es, gs[k].key))
    decreases |es|
  {
    if es != [] {
      var init := es[..|es| - 1];
      var e := es[|es| - 1];
      var before := Group(init);
      var gs := Group(es);
      GroupShape(init);
      assert gs == Add(before, e);
      forall key ensures HasKey(gs, key) <==> HasKey(es, key) {
        KeysAfterAdd(before, e, key);
        KeysOfInit(es, key);
      }
      match KeyIndex(before, e.key)
      case Some(k) =>
        forall i, j | 0 <= i < j < |gs| ensures gs[i].key != gs[j].key {
          assert gs[i].key == before[i].key && gs[j].key == before[j].key;
        }
      case None =>
        forall i, j | 0 <= i < j < |gs| ensures gs[i].key != gs[j].key {
          if j == |before| {
            assert gs[i] == before[i];
          } else {
            assert gs[i] == before[i] && gs[j] == before[j];
          }
        }
        assert SumFor(init, e.key) == 0.0 by {
          SumForAbsent(init, e.key);
        }
    }
  }

  lemma KeysAfterAdd(gs: seq<Entry>, e: Entry, key: string)
    ensures HasKey(Add(gs, e), key) <==> HasKey(gs, key) || key == e.key
  {
    var r := Add(gs, e);
    match KeyIndex(gs, e.key)
    case Some(k) =>
      if HasKey(gs, key) {
        var i :| 0 <= i < |gs| && gs[i].key == key;
        assert r[i].key == key;
      }
      if HasKey(r, key) {
        var i :| 0 <= i < |r| && r[i].key == key;
        assert gs[i].key == key;
      }
    case None =>
      if HasKey(gs, key) {
        var i :| 0 <= i < |gs| && gs[i].key == key;
        assert r[i].key == key;
      }
      assert r[|gs|].key == e.key;
      if HasKey(r, key) {
        var i :| 0 <= i < |r| && r[i].key == key;
        if i < |gs| { assert gs[i].key == key; }
      }
  }

  lemma KeysOfInit(es: seq<Entry>, key: string)
    requires es != []
    ensures HasKey(es, key) <==> HasKey(es[..|es| - 1], key) || key == es[|es| - 1].key
  {
    var init := es[..|es| - 1];
    if HasKey(init, key) {
      var i :| 0 <= i < |init| && init[i].key == key;
      assert es[i].key == key;
    }
    if HasKey(es, key) {
      var i :| 0 <= i < |es| && es[i].key == key;
      if i < |init| { assert init[i].key == key; }
    }
  }

  lemma {:induction false} SumForAbsent(es: seq<Entry>, key: string)
    requires !HasKey(es, key)
    ensures SumFor(es, key) == 0.0
    decreases |es|
  {
    if es != [] {
      KeysOfInit(es, key);
      SumForAbsent(es[..|es| - 1], key);
    }
  }

  /** The source's `while (sqlite3_step(stmt) == SQLITE_ROW)` loop: it lists
      the result rows and keeps a running total of their amounts. */
  method RunningTotal(rows: seq<Entry>) returns (total: real)
    ensures total == Total(rows)
  {
    total := 0.0;
    var i := 0;
    while i < |rows|
      invariant 0 <= i <= |rows|
      invariant total == Total(rows[..i])
    {
      assert rows[..i + 1][..i] == rows[..i];
      total := total + rows[i].amount;
      i := i + 1;
    }
    assert rows[..i] == rows;
  }
}
