/**
 The DNS service's route table: two maps, of which readers see one while the other is loaded,
 and the log of changed modules kept in the database.
 */
module DnsRoutes {
  import opened Seqs

  datatype Row = Row(key: nat, host: nat)

  type Table = map<nat, set<nat>>

  /** The hosts of each module in the rows of a query. */
  ghost predicate Lists(t: Table, rows: seq<Row>) {
    forall key: nat, host: nat :: host in At(t, key) <==> Row(key, host) in rows
  }

  // ----- The object -----

  class TableObject {
    var entries: Table

    constructor ()
      ensures entries == map[]
    {
      entries := map[];
    }
  }

  class Route {
    var data: TableObject
    var temp: TableObject

    constructor (rows: seq<Row>)
      ensures data != temp && fresh(data) && fresh(temp) && Lists(data.entries, rows) && temp.entries == map[]
    {
      data := new TableObject();
      temp := new TableObject();
      new;
      LoadInto(data, rows);
    }

    /** The loop shared by `build_maps` and `load_route_data`, on an empty map. */
    static method LoadInto(t: TableObject, rows: seq<Row>)
      requires t.entries == map[]
      modifies t
      ensures Lists(t.entries, rows)
    {
      for i := 0 to |rows|
        invariant Lists(t.entries, rows[..i])
      {
        ghost var was := t.entries;
        t.entries := t.entries[rows[i].key := At(t.entries, rows[i].key) + {rows[i].host}];
        ListsMore(was, rows[..i], rows[i]);
        assert rows[..i + 1] == rows[..i] + [rows[i]];
      }
      assert rows[..|rows|] == rows;
    }

    method GetHosts(key: nat) returns (hosts: set<nat>)
      ensures hosts == At(data.entries, key)
    {
      hosts := {};
      if key in data.entries {
        hosts := data.entries[key];
      }
    }

    /** Loads the spare map; `rows` is absent when the query fails.  The visible map is not touched. */
    method LoadRouteData(query: QueryResult) returns (ok: bool)
      requires data != temp
      modifies temp
      ensures ok == query.Rows? && data.entries == old(data.entries)
      ensures if ok then Lists(temp.entries, query.rows) else temp.entries == map[]
    {
      temp.entries := map[];
      if query.QueryFailed? {
        return false;
      }
      LoadInto(temp, query.rows);
      return true;
    }

    method Swap()
      modifies this
      ensures data == old(temp) && temp == old(data)
    {
      var t := data;
      data := temp;
      temp := t;
    }

    /** Load and, if that worked, swap: the visible table is one complete load or unchanged. */
    method Reload(query: QueryResult) returns (ok: bool)
      requires data != temp
      modifies this, data, temp
      ensures data != temp && {data, temp} == old({data, temp}) && ok == query.Rows?
      ensures if ok then Lists(data.entries, query.rows) else data.entries == old(data.entries)
    {
      ok := LoadRouteData(query);
      if ok {
        Swap();
      }
    }
  }

  datatype QueryResult = Rows(rows: seq<Row>) | QueryFailed

  lemma ListsMore(t: Table, rows: seq<Row>, row: Row)
    requires Lists(t, rows)
    ensures Lists(t[row.key := At(t, row.key) + {row.host}], rows + [row])
  {
  }
}
