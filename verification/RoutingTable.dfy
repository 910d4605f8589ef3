/** The routing table: one route for each destination. */
module RoutingTables {
  import opened Options
  import opened Packets

  /** What a default-constructed address holds. */
  const NO_ADDRESS: Address := 0x6666_6666

  datatype Route = Route(dst: Address, gateway: Address, iface: Address)

  const NO_ROUTE := Route(NO_ADDRESS, NO_ADDRESS, NO_ADDRESS)

  /** Inserts a route unless its destination already has one. */
  function Added(table: map<Address, Route>, r: Route): map<Address, Route> {
    if r.dst in table then table else table[r.dst := r]
  }

  class RoutingTable {
    var entries: map<Address, Route>

    constructor ()
      ensures entries == map[]
    {
      entries := map[];
    }

    method LookupRoute(id: Address) returns (r: Option<Route>)
      ensures r == if id in entries then Some(entries[id]) else None
    {
      if id !in entries {
        return None;
      }
      return Some(entries[id]);
    }

    method DeleteRoute(dst: Address) returns (deleted: bool)
      modifies this
      ensures entries == old(entries) - {dst} && deleted == (dst in old(entries))
    {
      deleted := dst in entries;
      entries := entries - {dst};
    }

    method AddRoute(r: Route) returns (added: bool)
      modifies this
      ensures entries == (if r.dst in old(entries) then old(entries) else old(entries)[r.dst := r])
      ensures added == (r.dst !in old(entries))
    {
      added := r.dst !in entries;
      if added {
        entries := entries[r.dst := r];
      }
    }

    method Update(r: Route) returns (updated: bool)
      modifies this
      ensures updated == (r.dst in old(entries))
      ensures entries == if updated then old(entries)[r.dst := r] else old(entries)
    {
      if r.dst !in entries {
        return false;
      }
      entries := entries[r.dst := r];
      return true;
    }

    /** Erases while it walks the table: no entry is skipped, and no other entry is lost. */
    method DeleteAllRouteFromInterface(iface: Address)
      modifies this
      ensures entries == map k | k in old(entries) && old(entries)[k].iface != iface :: old(entries)[k]
    {
      var todo := entries.Keys;
      while todo != {}
        invariant todo <= entries.Keys <= old(entries).Keys
        invariant forall k :: k in entries ==> entries[k] == old(entries)[k]
        invariant forall k :: k in entries && k !in todo ==> entries[k].iface != iface
        invariant forall k :: k in old(entries) && k !in entries ==> old(entries)[k].iface == iface
        decreases todo
      {
        var i :| i in todo;
        todo := todo - {i};
        if entries[i].iface == iface {
          entries := entries - {i};
        }
      }
    }
  }
}
