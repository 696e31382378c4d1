/**
 * `upsertLink`, `getLink` and `listLinks` over `fleet_links`
 * (src/services/links.service.js), one meter per vehicle.
 */
module LinksService {
  import opened Results
  import opened Text
  import opened Schema

  /** A `fleet_links` row as the driver returns it: `{vehicle_id, meter_id}`. */
  datatype LinkRow = LinkRow(vehicleId: string, meterId: string)

  /**
   * `INSERT … ON CONFLICT (vehicle_id) DO UPDATE SET meter_id = … RETURNING`:
   * the vehicle now maps to `meterId`, every other vehicle keeps its meter,
   * the link count grows only for a new vehicle, and the returned row is the
   * stored pair.
   */
  function UpsertLink(s: Store, vehicleId: string, meterId: string): (r: (Store, LinkRow))
    ensures r.0.meters == s.meters && r.0.vehicles == s.vehicles
    ensures r.0.links.Keys == s.links.Keys + {vehicleId}
    ensures r.0.links[vehicleId] == meterId
    ensures forall v :: v in s.links && v != vehicleId ==> r.0.links[v] == s.links[v]
    ensures vehicleId in s.links ==> |r.0.links| == |s.links|
    ensures vehicleId !in s.links ==> |r.0.links| == |s.links| + 1
    ensures r.1 == LinkRow(vehicleId, r.0.links[vehicleId])
  {
    var links := s.links[vehicleId := meterId];
    (s.(links := links), LinkRow(vehicleId, meterId))
  }

  /** `SELECT … WHERE vehicle_id = $1`: the stored pair, or null when the vehicle has no link. */
  function GetLink(s: Store, vehicleId: string): (r: Option<LinkRow>)
    ensures r.None? <==> vehicleId !in s.links
    ensures r.Some? ==> r.value == LinkRow(vehicleId, s.links[vehicleId])
  {
    if vehicleId in s.links then Some(LinkRow(vehicleId, s.links[vehicleId])) else None
  }

  /** Reading a link back right after saving it returns the meter just saved. */
  lemma UpsertThenGet(s: Store, v: string, m: string)
    ensures GetLink(UpsertLink(s, v, m).0, v) == Some(LinkRow(v, m))
  {
  }

  /**
   * Re-linking a vehicle overrides its meter without adding a row: after
   * `upsert(v, m1)` and `upsert(v, m2)` the vehicle maps to `m2`, and there
   * are as many links as after the first upsert alone.
   */
  lemma UpsertOverrides(s: Store, v: string, m1: string, m2: string)
    ensures var once := UpsertLink(s, v, m1).0;
      && UpsertLink(once, v, m2).0.links[v] == m2
      && |UpsertLink(once, v, m2).0.links| == |once.links|
      && UpsertLink(once, v, m2).0 == UpsertLink(s, v, m2).0
  {
    var once := UpsertLink(s, v, m1).0;
    assert once.links[v := m2] == s.links[v := m2];
  }

  /** Rows strictly ascending by vehicle id, which also makes the ids distinct. */
  predicate Ascending(rows: seq<LinkRow>) {
    forall i, j :: 0 <= i < j < |rows| ==> StrLt(rows[i].vehicleId, rows[j].vehicleId)
  }

  /**
   * `rows` is the result of `ORDER BY vehicle_id ASC` over `links`: ascending,
   * every row a stored pair, and every stored vehicle present.
   */
  predicate IsSortedListing(links: map<string, string>, rows: seq<LinkRow>) {
    && Ascending(rows)
    && (forall i :: 0 <= i < |rows| ==> rows[i].vehicleId in links && links[rows[i].vehicleId] == rows[i].meterId)
    && (forall v :: v in links ==> exists i :: 0 <= i < |rows| && rows[i].vehicleId == v)
  }

  /** Prepending a row below every other row keeps the rows ascending. */
  lemma AscendingCons(x: LinkRow, rows: seq<LinkRow>)
    requires Ascending(rows)
    requires forall i :: 0 <= i < |rows| ==> StrLt(x.vehicleId, rows[i].vehicleId)
    ensures Ascending([x] + rows)
  {
    var r := [x] + rows;
    forall i, j | 0 <= i < j < |r|
      ensures StrLt(r[i].vehicleId, r[j].vehicleId)
    {
      if i > 0 {
        assert r[i] == rows[i - 1] && r[j] == rows[j - 1];
      }
    }
  }

  /** A row below the head of an ascending sequence is below all of it. */
  lemma BelowHead(x: string, rows: seq<LinkRow>)
    requires Ascending(rows) && rows != []
    requires StrLt(x, rows[0].vehicleId)
    ensures forall i :: 0 <= i < |rows| ==> StrLt(x, rows[i].vehicleId)
  {
    forall i | 0 < i < |rows|
      ensures StrLt(x, rows[i].vehicleId)
    {
      StrLtTransitive(x, rows[0].vehicleId, rows[i].vehicleId);
    }
  }

  /** Inserts a row for a vehicle not yet listed at its place in ascending order. */
  function InsertSorted(rows: seq<LinkRow>, row: LinkRow): (r: seq<LinkRow>)
    requires Ascending(rows)
    requires forall i :: 0 <= i < |rows| ==> rows[i].vehicleId != row.vehicleId
    ensures |r| == |rows| + 1
    ensures Ascending(r)
    ensures forall x :: x in r <==> x in rows || x == row
    decreases |rows|
  {
    if rows == [] then [row]
    else if StrLt(row.vehicleId, rows[0].vehicleId) then
      BelowHead(row.vehicleId, rows);
      AscendingCons(row, rows);
      [row] + rows
    else
      StrLtTotal(row.vehicleId, rows[0].vehicleId);
      var tail := rows[1..];
      assert Ascending(tail) by {
        forall i, j | 0 <= i < j < |tail|
          ensures StrLt(tail[i].vehicleId, tail[j].vehicleId)
        {
          assert tail[i] == rows[i + 1] && tail[j] == rows[j + 1];
        }
      }
      var rest := InsertSorted(tail, row);
      assert forall i :: 0 <= i < |rest| ==> StrLt(rows[0].vehicleId, rest[i].vehicleId) by {
        forall i | 0 <= i < |rest|
          ensures StrLt(rows[0].vehicleId, rest[i].vehicleId)
        {
          if rest[i] != row {
            assert rest[i] in tail;
            var k :| 0 <= k < |tail| && tail[k] == rest[i];
            assert rows[k + 1] == tail[k];
          }
        }
      }
      AscendingCons(rows[0], rest);
      assert forall x :: x in rows <==> x == rows[0] || x in tail by {
        assert rows == [rows[0]] + tail;
      }
      [rows[0]] + rest
  }

  /**
   * `SELECT vehicle_id, meter_id FROM fleet_links ORDER BY vehicle_id ASC`:
   * every link exactly once, ascending by vehicle id.
   */
  method ListLinks(s: Store) returns (rows: seq<LinkRow>)
    ensures IsSortedListing(s.links, rows)
    ensures |rows| == |s.links|
  {
    rows := [];
    var rest := s.links.Keys;
    while rest != {}
      invariant rest <= s.links.Keys
      invariant Ascending(rows)
      invariant forall i :: 0 <= i < |rows| ==>
        rows[i].vehicleId in s.links && rows[i].vehicleId !in rest && s.links[rows[i].vehicleId] == rows[i].meterId
      invariant forall v :: v in s.links && v !in rest ==> exists i :: 0 <= i < |rows| && rows[i].vehicleId == v
      invariant |rows| + |rest| == |s.links|
      decreases |rest|
    {
      var v :| v in rest;
      var row := LinkRow(v, s.links[v]);
      var next := InsertSorted(rows, row);
      forall w | w in s.links && w !in rest - {v}
        ensures exists i :: 0 <= i < |next| && next[i].vehicleId == w
      {
        if w == v {
          assert row in next;
        } else {
          var i :| 0 <= i < |rows| && rows[i].vehicleId == w;
          assert rows[i] in next;
        }
      }
      forall i | 0 <= i < |next|
        ensures next[i].vehicleId in s.links && next[i].vehicleId !in rest - {v}
        ensures s.links[next[i].vehicleId] == next[i].meterId
      {
        assert next[i] in rows || next[i] == row;
      }
      rows := next;
      rest := rest - {v};
    }
  }

  /** Two sorted listings of the same links start with the same row: the least vehicle id. */
  lemma HeadsAgree(links: map<string, string>, a: seq<LinkRow>, b: seq<LinkRow>)
    requires IsSortedListing(links, a) && IsSortedListing(links, b)
    requires a != [] && b != []
    ensures a[0] == b[0]
  {
    var v := a[0].vehicleId;
    var w := b[0].vehicleId;
    if v != w {
      var jb :| 0 <= jb < |b| && b[jb].vehicleId == v;
      var ja :| 0 <= ja < |a| && a[ja].vehicleId == w;
      assert StrLt(v, w) && StrLt(w, v);
      StrLtAsymmetric(v, w);
    }
  }

  /** Dropping the first row of a sorted listing lists the links without that vehicle. */
  lemma TailListing(links: map<string, string>, a: seq<LinkRow>)
    requires IsSortedListing(links, a) && a != []
    ensures IsSortedListing(links - {a[0].vehicleId}, a[1..])
  {
    var v := a[0].vehicleId;
    var rest := links - {v};
    var t := a[1..];
    forall i | 0 <= i < |t|
      ensures t[i].vehicleId in rest && rest[t[i].vehicleId] == t[i].meterId
    {
      assert t[i] == a[i + 1];
      StrLtIrreflexive(v);
    }
    forall u | u in rest
      ensures exists i :: 0 <= i < |t| && t[i].vehicleId == u
    {
      var i :| 0 <= i < |a| && a[i].vehicleId == u;
      assert t[i - 1] == a[i];
    }
    forall i, j | 0 <= i < j < |t|
      ensures StrLt(t[i].vehicleId, t[j].vehicleId)
    {
      assert t[i] == a[i + 1] && t[j] == a[j + 1];
    }
  }

  /** A sorted listing is empty exactly when there are no links. */
  lemma ListingEmptyIff(links: map<string, string>, a: seq<LinkRow>)
    requires IsSortedListing(links, a)
    ensures a == [] <==> links == map[]
  {
    if a != [] {
      assert a[0].vehicleId in links;
    }
    if links != map[] {
      var v :| v in links;
      var i :| 0 <= i < |a| && a[i].vehicleId == v;
    }
  }

  /** There is only one sorted listing of a link table, so `listLinks` is fully determined. */
  lemma {:induction false} SortedListingUnique(links: map<string, string>, a: seq<LinkRow>, b: seq<LinkRow>)
    requires IsSortedListing(links, a) && IsSortedListing(links, b)
    ensures a == b
    decreases |a|
  {
    ListingEmptyIff(links, a);
    ListingEmptyIff(links, b);
    if a != [] && b != [] {
      HeadsAgree(links, a, b);
      TailListing(links, a);
      TailListing(links, b);
      var ta, tb := a[1..], b[1..];
      SortedListingUnique(links - {a[0].vehicleId}, ta, tb);
      assert |a| == |b|;
      forall i | 0 < i < |a|
        ensures a[i] == b[i]
      {
        assert a[i] == ta[i - 1] && b[i] == tb[i - 1];
      }
    }
  }

  /** Linking two non-blank identifiers keeps the store valid. */
  lemma UpsertLinkPreservesValid(s: Store, v: string, m: string)
    requires Valid(s) && !Blank(v) && !Blank(m)
    ensures Valid(UpsertLink(s, v, m).0)
  {
  }
}
