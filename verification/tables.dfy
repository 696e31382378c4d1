/**
 * The pair of tables each device class writes: an append-only history keyed
 * by (device id, instant) with `INSERT … ON CONFLICT DO NOTHING`, and a
 * one-row-per-device live status with `INSERT … ON CONFLICT DO UPDATE SET`
 * (src/services/telemetry.service.js). Meters and vehicles use the same two
 * statements over different columns, so the tables are generic in the
 * history row `R` and the live-status row `L`.
 */
module Tables {

  datatype DeviceTables<R, L> = DeviceTables(history: map<(string, int), R>, live: map<string, L>)

  /** One ingest's writes: the device, the parsed instant, the history row and the live row. */
  datatype Write<R, L> = Write(device: string, instant: int, row: R, status: L) {
    /** The history table's unique key. */
    function Key(): (string, int) {
      (device, instant)
    }
  }

  /** The history insert: a row for a key already present is silently dropped. */
  function InsertHistory<R, L>(t: DeviceTables<R, L>, w: Write<R, L>): (r: DeviceTables<R, L>)
    ensures r.live == t.live
    ensures r.history.Keys == t.history.Keys + {w.Key()}
    ensures w.Key() in t.history ==> r == t
    ensures w.Key() !in t.history ==> r.history[w.Key()] == w.row
    ensures forall k :: k in t.history ==> r.history[k] == t.history[k]
  {
    if w.Key() in t.history then t else t.(history := t.history[w.Key() := w.row])
  }

  /** The live-status upsert: the device's row becomes the incoming one, whatever was there. */
  function UpsertLive<R, L>(t: DeviceTables<R, L>, w: Write<R, L>): (r: DeviceTables<R, L>)
    ensures r.history == t.history
    ensures r.live.Keys == t.live.Keys + {w.device}
    ensures r.live[w.device] == w.status
    ensures forall d :: d in t.live && d != w.device ==> r.live[d] == t.live[d]
  {
    t.(live := t.live[w.device := w.status])
  }

  /** A complete ingest: the history insert, then the live-status upsert. */
  function Apply<R, L>(t: DeviceTables<R, L>, w: Write<R, L>): DeviceTables<R, L> {
    UpsertLive(InsertHistory(t, w), w)
  }

  /** Ingesting the same write twice leaves the tables as ingesting it once. */
  lemma ApplyIdempotent<R, L>(t: DeviceTables<R, L>, w: Write<R, L>)
    ensures Apply(Apply(t, w), w) == Apply(t, w)
  {
    var once := Apply(t, w);
    assert InsertHistory(once, w) == once;
    assert once.live[w.device := w.status] == once.live;
  }

  /**
   * A retry after a crash between the two statements (history written,
   * live status not) reaches the same tables as an uninterrupted ingest.
   */
  lemma RetryAfterHistoryConverges<R, L>(t: DeviceTables<R, L>, w: Write<R, L>)
    ensures Apply(InsertHistory(t, w), w) == Apply(t, w)
  {
    var half := InsertHistory(t, w);
    assert InsertHistory(half, w) == half;
  }

  /** A write for a new history key adds exactly that row and sets the device's live status. */
  lemma ApplyFresh<R, L>(t: DeviceTables<R, L>, w: Write<R, L>)
    requires w.Key() !in t.history
    ensures Apply(t, w) == DeviceTables(t.history[w.Key() := w.row], t.live[w.device := w.status])
  {
  }

  /** Ingesting a sequence of writes in arrival order. */
  function ApplyAll<R, L>(t: DeviceTables<R, L>, ws: seq<Write<R, L>>): DeviceTables<R, L>
    decreases |ws|
  {
    if ws == [] then t else Apply(ApplyAll(t, ws[..|ws| - 1]), ws[|ws| - 1])
  }

  /** `ws[i]` is the last write for device `d`. */
  predicate IsLastFor<R, L>(ws: seq<Write<R, L>>, i: int, d: string) {
    0 <= i < |ws| && ws[i].device == d && forall j :: i < j < |ws| ==> ws[j].device != d
  }

  /** `ws[i]` is the first write with history key `k`. */
  predicate IsFirstFor<R, L>(ws: seq<Write<R, L>>, i: int, k: (string, int)) {
    0 <= i < |ws| && ws[i].Key() == k && forall j :: 0 <= j < i ==> ws[j].Key() != k
  }

  /** The history keys a sequence of writes targets. */
  function KeysOf<R, L>(ws: seq<Write<R, L>>): (ks: set<(string, int)>)
    ensures forall i :: 0 <= i < |ws| ==> ws[i].Key() in ks
    ensures forall k :: k in ks ==> exists i :: 0 <= i < |ws| && ws[i].Key() == k
  {
    set i | 0 <= i < |ws| :: ws[i].Key()
  }

  /** Last arrival wins: a device's live status is its last-ingested write, whatever the instants. */
  lemma {:induction false} LiveIsLastArrival<R, L>(t: DeviceTables<R, L>, ws: seq<Write<R, L>>, d: string)
    requires exists i :: 0 <= i < |ws| && ws[i].device == d
    ensures d in ApplyAll(t, ws).live
    ensures exists i :: IsLastFor(ws, i, d) && ApplyAll(t, ws).live[d] == ws[i].status
    decreases |ws|
  {
    var n := |ws| - 1;
    var init := ws[..n];
    if ws[n].device == d {
      assert IsLastFor(ws, n, d);
    } else {
      var i :| 0 <= i < |ws| && ws[i].device == d;
      assert init[i] == ws[i];
      LiveIsLastArrival(t, init, d);
      var k :| IsLastFor(init, k, d) && ApplyAll(t, init).live[d] == init[k].status;
      assert IsLastFor(ws, k, d);
    }
  }

  /** A device no write mentions keeps the live row it had, or stays absent. */
  lemma {:induction false} LiveUntouched<R, L>(t: DeviceTables<R, L>, ws: seq<Write<R, L>>, d: string)
    requires forall i :: 0 <= i < |ws| ==> ws[i].device != d
    ensures d in ApplyAll(t, ws).live <==> d in t.live
    ensures d in t.live ==> ApplyAll(t, ws).live[d] == t.live[d]
    decreases |ws|
  {
    if ws != [] {
      var n := |ws| - 1;
      assert forall i :: 0 <= i < n ==> ws[..n][i] == ws[i];
      LiveUntouched(t, ws[..n], d);
    }
  }

  /** The keys of a non-empty sequence are those of its prefix plus its last write's key. */
  lemma KeysOfSnoc<R, L>(ws: seq<Write<R, L>>)
    requires ws != []
    ensures KeysOf(ws) == KeysOf(ws[..|ws| - 1]) + {ws[|ws| - 1].Key()}
  {
    var n := |ws| - 1;
    forall k | k in KeysOf(ws)
      ensures k in KeysOf(ws[..n]) || k == ws[n].Key()
    {
      var i :| 0 <= i < |ws| && ws[i].Key() == k;
      if i < n {
        assert ws[..n][i] == ws[i];
      }
    }
    forall k | k in KeysOf(ws[..n])
      ensures k in KeysOf(ws)
    {
      var i :| 0 <= i < n && ws[..n][i].Key() == k;
      assert ws[i] == ws[..n][i];
    }
  }

  /** History only grows: its keys are the initial keys plus every key written. */
  lemma {:induction false} HistoryKeys<R, L>(t: DeviceTables<R, L>, ws: seq<Write<R, L>>)
    ensures ApplyAll(t, ws).history.Keys == t.history.Keys + KeysOf(ws)
    decreases |ws|
  {
    if ws != [] {
      HistoryKeys(t, ws[..|ws| - 1]);
      KeysOfSnoc(ws);
    }
  }

  /** First write wins: a history row, once present, keeps its values through any later ingests. */
  lemma {:induction false} HistoryKept<R, L>(t: DeviceTables<R, L>, ws: seq<Write<R, L>>, k: (string, int))
    requires k in t.history
    ensures k in ApplyAll(t, ws).history && ApplyAll(t, ws).history[k] == t.history[k]
    decreases |ws|
  {
    if ws != [] {
      HistoryKept(t, ws[..|ws| - 1], k);
    }
  }

  /** The first write for a key in a prefix is still the first one after a write is appended. */
  lemma FirstForSnoc<R, L>(ws: seq<Write<R, L>>, f: int, k: (string, int))
    requires ws != [] && IsFirstFor(ws[..|ws| - 1], f, k)
    ensures IsFirstFor(ws, f, k) && ws[f] == ws[..|ws| - 1][f]
  {
    var init := ws[..|ws| - 1];
    assert forall j :: 0 <= j < f ==> ws[j] == init[j];
  }

  /** A key no write of a prefix targets is first written by the write that follows it. */
  lemma FirstForLast<R, L>(ws: seq<Write<R, L>>, k: (string, int))
    requires ws != [] && ws[|ws| - 1].Key() == k
    requires forall i :: 0 <= i < |ws| - 1 ==> ws[i].Key() != k
    ensures IsFirstFor(ws, |ws| - 1, k)
    ensures k !in KeysOf(ws[..|ws| - 1])
  {
    var init := ws[..|ws| - 1];
    assert forall i :: 0 <= i < |init| ==> init[i] == ws[i];
  }

  /** First write wins: a key absent at the start holds the row of the first write that targets it. */
  lemma {:induction false} HistoryFirstWrite<R, L>(t: DeviceTables<R, L>, ws: seq<Write<R, L>>, k: (string, int))
    requires k !in t.history
    requires exists i :: 0 <= i < |ws| && ws[i].Key() == k
    ensures k in ApplyAll(t, ws).history
    ensures exists i :: IsFirstFor(ws, i, k) && ApplyAll(t, ws).history[k] == ws[i].row
    decreases |ws|
  {
    var n := |ws| - 1;
    var init := ws[..n];
    var before := ApplyAll(t, init);
    assert ApplyAll(t, ws) == Apply(before, ws[n]);
    if exists i :: 0 <= i < n && ws[i].Key() == k {
      var i :| 0 <= i < n && ws[i].Key() == k;
      assert init[i] == ws[i];
      HistoryFirstWrite(t, init, k);
      var f :| IsFirstFor(init, f, k) && before.history[k] == init[f].row;
      FirstForSnoc(ws, f, k);
      assert ApplyAll(t, ws).history[k] == ws[f].row;
    } else {
      FirstForLast(ws, k);
      HistoryKeys(t, init);
      assert ApplyAll(t, ws).history[k] == ws[n].row;
    }
  }

  /** A device has at most one last write. */
  lemma LastForUnique<R, L>(ws: seq<Write<R, L>>, i: int, j: int, d: string)
    requires IsLastFor(ws, i, d) && IsLastFor(ws, j, d)
    ensures i == j
  {
  }

  /** Redelivering a batch leaves the history as it was: every key is already taken. */
  lemma ReplayKeepsHistory<R, L>(t: DeviceTables<R, L>, ws: seq<Write<R, L>>)
    ensures ApplyAll(ApplyAll(t, ws), ws).history == ApplyAll(t, ws).history
  {
    var u := ApplyAll(t, ws);
    var v := ApplyAll(u, ws);
    HistoryKeys(t, ws);
    HistoryKeys(u, ws);
    forall k | k in u.history
      ensures v.history[k] == u.history[k]
    {
      HistoryKept(u, ws, k);
    }
  }

  /** Redelivering a batch leaves each device's live status as it was. */
  lemma ReplayKeepsLive<R, L>(t: DeviceTables<R, L>, ws: seq<Write<R, L>>, d: string)
    ensures var u := ApplyAll(t, ws);
      (d in ApplyAll(u, ws).live <==> d in u.live)
      && (d in u.live ==> ApplyAll(u, ws).live[d] == u.live[d])
  {
    var u := ApplyAll(t, ws);
    if exists i :: 0 <= i < |ws| && ws[i].device == d {
      LiveIsLastArrival(t, ws, d);
      LiveIsLastArrival(u, ws, d);
      var i :| IsLastFor(ws, i, d) && u.live[d] == ws[i].status;
      var j :| IsLastFor(ws, j, d) && ApplyAll(u, ws).live[d] == ws[j].status;
      LastForUnique(ws, i, j, d);
    } else {
      LiveUntouched(u, ws, d);
    }
  }

  /**
   * At-least-once delivery is harmless: redelivering a whole batch after it
   * was ingested leaves every table as it was.
   */
  lemma ReplayConverges<R, L>(t: DeviceTables<R, L>, ws: seq<Write<R, L>>)
    ensures ApplyAll(ApplyAll(t, ws), ws) == ApplyAll(t, ws)
  {
    var u := ApplyAll(t, ws);
    var v := ApplyAll(u, ws);
    ReplayKeepsHistory(t, ws);
    forall d | d in u.live || d in v.live
      ensures d in u.live && d in v.live && v.live[d] == u.live[d]
    {
      ReplayKeepsLive(t, ws, d);
    }
    assert v.live == u.live;
  }
}
